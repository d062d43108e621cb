/**
 The gate between accepting mail and maintenance: one condition variable, and callers
 that can be cancelled wherever they are suspended.
 */
module MaintenanceGate {
  import opened Seqs

  /** Where a caller stands; a suspended one remembers how often everybody had been notified. */
  datatype Caller =
    | AwaitsGate(at: nat)        // maintenance, while another one holds the gate
    | Drains(at: nat)            // maintenance, holding the gate until the accepts are through
    | Maintains                  // the maintenance body
    | Stranded                   // cancelled before it could give the gate back
    | AwaitsOpening(at: nat)     // an accept, while the gate is held
    | Accepts                    // an accept in progress
    | Uncounted                  // cancelled before it could leave
    | Gone

  datatype Gate = Gate(active: bool, accepts: int, signals: nat)

  datatype System = System(gate: Gate, callers: seq<Caller>)

  // ----- the stretches of code under the condition's lock -----

  function NotifyAll(g: Gate): (r: Gate) { g.(signals := g.signals + 1) }

  /** Beginning maintenance, at first or after a notification. */
  function TryBegin(g: Gate): (r: (Gate, Caller)) {
    if g.active then (g, AwaitsGate(g.signals))
    else TryDrain(g.(active := true))
  }

  function TryDrain(g: Gate): (r: (Gate, Caller)) {
    if g.accepts != 0 then (g, Drains(g.signals)) else (g, Maintains)
  }

  /** Giving the gate back: at the end of the body, or when the draining caller is cancelled. */
  function Reopen(g: Gate): (r: Gate) { NotifyAll(g.(active := false)) }

  function TryEnter(g: Gate): (r: (Gate, Caller)) {
    if g.active then (g, AwaitsOpening(g.signals)) else (g.(accepts := g.accepts + 1), Accepts)
  }

  function Leave(g: Gate): (r: Gate) {
    var h := g.(accepts := g.accepts - 1);
    if h.accepts == 0 then NotifyAll(h) else h
  }

  // ----- interleavings -----

  datatype Op =
    | BeginMaintenance
    | BeginAccept
    | Wake(c: nat)
    | Cancel(c: nat)             // of a suspended caller
    | Finish(c: nat)             // the body or the accept is through
    | Lose(c: nat)               // cancelled again while it waits for the lock to say so

  predicate Suspended(c: Caller) {
    c.AwaitsGate? || c.Drains? || c.AwaitsOpening?
  }

  predicate Enabled(s: System, op: Op) {
    match op
    case BeginMaintenance => true
    case BeginAccept => true
    case Wake(c) => c < |s.callers| && Suspended(s.callers[c]) && s.callers[c].at < s.gate.signals
    case Cancel(c) => c < |s.callers| && Suspended(s.callers[c])
    case Finish(c) => c < |s.callers| && (s.callers[c].Maintains? || s.callers[c].Accepts?)
    case Lose(c) => c < |s.callers| && (s.callers[c].Maintains? || s.callers[c].Accepts?)
  }

  function Join(s: System, r: (Gate, Caller)): (t: System) {
    System(r.0, s.callers + [r.1])
  }

  function Move(s: System, c: nat, r: (Gate, Caller)): (t: System)
    requires c < |s.callers|
  {
    System(r.0, s.callers[c := r.1])
  }

  function Next(s: System, op: Op): (t: System)
    requires Enabled(s, op)
  {
    var g := s.gate;
    match op
    case BeginMaintenance => Join(s, TryBegin(g))
    case BeginAccept => Join(s, TryEnter(g))
    case Wake(c) =>
      Move(s, c, if s.callers[c].AwaitsGate? then TryBegin(g)
                 else if s.callers[c].Drains? then TryDrain(g)
                 else TryEnter(g))
    case Cancel(c) => Move(s, c, (if s.callers[c].Drains? then Reopen(g) else g, Gone))
    case Finish(c) => Move(s, c, (if s.callers[c].Maintains? then Reopen(g) else Leave(g), Gone))
    case Lose(c) => Move(s, c, (g, if s.callers[c].Maintains? then Stranded else Uncounted))
  }

  // ----- the invariant -----

  predicate Holds(c: Caller) { c.Drains? || c.Maintains? || c.Stranded? }

  predicate Counted(c: Caller) { c.Accepts? || c.Uncounted? }

  /** A suspended caller that was not notified since truly has to wait. */
  ghost predicate WaitsForReason(g: Gate, c: Caller) {
    && (c.AwaitsGate? || c.AwaitsOpening? ==> c.at <= g.signals && (c.at == g.signals ==> g.active))
    && (c.Drains? ==> c.at <= g.signals && (c.at == g.signals ==> g.accepts != 0))
    && (c.Maintains? ==> g.accepts == 0)
  }

  ghost predicate Inv(s: System) {
    && Count(s.callers, Holds) == (if s.gate.active then 1 else 0)
    && Count(s.callers, Counted) == s.gate.accepts
    && (forall c :: 0 <= c < |s.callers| ==> WaitsForReason(s.gate, s.callers[c]))
  }

  lemma JoinInv(s: System, r: (Gate, Caller))
    requires Inv(s) && (r == TryBegin(s.gate) || r == TryEnter(s.gate))
    ensures Inv(Join(s, r))
  {
    CountAppend(s.callers, r.1, Holds);
    CountAppend(s.callers, r.1, Counted);
    NobodyHolds(s);
  }

  lemma NobodyHolds(s: System)
    requires Inv(s)
    ensures !s.gate.active ==> forall c :: 0 <= c < |s.callers| ==> !Holds(s.callers[c])
    ensures s.gate.accepts == 0 ==> forall c :: 0 <= c < |s.callers| ==> !Counted(s.callers[c])
    ensures 0 <= s.gate.accepts
  {
    CountZero(s.callers, Holds);
    CountZero(s.callers, Counted);
  }

  lemma {:induction false} OnlyOne(s: seq<Caller>, i: nat, j: nat)
    requires i < j < |s| && Holds(s[i]) && Holds(s[j])
    ensures Count(s, Holds) >= 2
  {
    CountUpdate(s, i, Gone, Holds);
    assert s[i := Gone][j] == s[j];
    CountZero(s[i := Gone], Holds);
  }

  lemma MoveInv(s: System, c: nat, r: (Gate, Caller))
    requires Inv(s) && c < |s.callers|
    requires var x := s.callers[c];
             || (x.AwaitsGate? && (r == TryBegin(s.gate) || r == (s.gate, Gone)))
             || (x.AwaitsOpening? && (r == TryEnter(s.gate) || r == (s.gate, Gone)))
             || (x.Drains? && (r == TryDrain(s.gate) || r == (Reopen(s.gate), Gone)))
             || (x.Maintains? && (r == (Reopen(s.gate), Gone) || r == (s.gate, Stranded)))
             || (x.Accepts? && (r == (Leave(s.gate), Gone) || r == (s.gate, Uncounted)))
    ensures Inv(Move(s, c, r))
  {
    CountUpdate(s.callers, c, r.1, Holds);
    CountUpdate(s.callers, c, r.1, Counted);
    NobodyHolds(s);
    var t := Move(s, c, r);
    forall d | 0 <= d < |s.callers| && d != c ensures WaitsForReason(t.gate, t.callers[d]) {
      assert WaitsForReason(s.gate, s.callers[d]);
      if Holds(s.callers[c]) && Holds(s.callers[d]) {
        if c < d { OnlyOne(s.callers, c, d); } else { OnlyOne(s.callers, d, c); }
        assert false;
      }
    }
  }

  function Init(): (s: System) { System(Gate(false, 0, 0), []) }

  ghost predicate Reaches(s: System, ops: seq<Op>, t: System)
    decreases |ops|
  {
    if ops == [] then s == t else Enabled(s, ops[0]) && Reaches(Next(s, ops[0]), ops[1..], t)
  }

  lemma {:induction false} RunInv(s: System, ops: seq<Op>, t: System)
    requires Inv(s) && Reaches(s, ops, t)
    ensures Inv(t)
    decreases |ops|
  {
    hide Inv;
    if ops != [] {
      var g := s.gate;
      match ops[0] {
        case BeginMaintenance => JoinInv(s, TryBegin(g));
        case BeginAccept => JoinInv(s, TryEnter(g));
        case Wake(c) =>
          var x := s.callers[c];
          MoveInv(s, c, if x.AwaitsGate? then TryBegin(g) else if x.Drains? then TryDrain(g) else TryEnter(g));
        case Cancel(c) => MoveInv(s, c, (if s.callers[c].Drains? then Reopen(g) else g, Gone));
        case Finish(c) => MoveInv(s, c, (if s.callers[c].Maintains? then Reopen(g) else Leave(g), Gone));
        case Lose(c) => MoveInv(s, c, (g, if s.callers[c].Maintains? then Stranded else Uncounted));
      }
      RunInv(Next(s, ops[0]), ops[1..], t);
    }
  }

  /** While a maintenance body runs, no accept is in progress and no other body runs. */
  lemma MutualExclusion(ops: seq<Op>, s: System, c: nat, d: nat)
    requires Reaches(Init(), ops, s) && c < |s.callers| && d < |s.callers| && s.callers[c].Maintains?
    ensures !s.callers[d].Accepts?
    ensures s.callers[d].Maintains? ==> c == d
  {
    RunInv(Init(), ops, s);
    hide Reaches;
    assert WaitsForReason(s.gate, s.callers[c]);
    NobodyHolds(s);
    if s.callers[d].Maintains? && c != d {
      if c < d { OnlyOne(s.callers, c, d); } else { OnlyOne(s.callers, d, c); }
      assert false;
    }
  }

  /** Cancelling a begin that waits for accepts reopens the gate and notifies everybody who waits. */
  lemma CancelledBeginReopens(ops: seq<Op>, s: System, c: nat)
    requires Reaches(Init(), ops, s) && c < |s.callers| && s.callers[c].Drains?
    ensures var t := Next(s, Cancel(c));
            && !t.gate.active
            && t.gate.accepts == s.gate.accepts
            && (forall d :: 0 <= d < |t.callers| && Suspended(t.callers[d]) ==> Enabled(t, Wake(d)))
            && TryEnter(t.gate).1 == Accepts
  {
    RunInv(Init(), ops, s);
    hide Reaches;
    var t := Next(s, Cancel(c));
    forall d | 0 <= d < |t.callers| && Suspended(t.callers[d]) ensures Enabled(t, Wake(d)) {
      assert WaitsForReason(s.gate, s.callers[d]);
    }
  }

  /** The gate is held exactly while one maintenance drains, runs, or was cut off before giving it back. */
  lemma HeldIff(ops: seq<Op>, s: System)
    requires Reaches(Init(), ops, s)
    ensures s.gate.active <==> exists c :: 0 <= c < |s.callers| && Holds(s.callers[c])
    ensures s.gate.accepts == Count(s.callers, Counted)
  {
    RunInv(Init(), ops, s);
    hide Reaches;
    CountZero(s.callers, Holds);
  }

  /** No wake-up is lost: a suspended caller that cannot be woken waits for something that is still so. */
  lemma NoLostWakeup(ops: seq<Op>, s: System, c: nat)
    requires Reaches(Init(), ops, s) && c < |s.callers| && Suspended(s.callers[c]) && !Enabled(s, Wake(c))
    ensures if s.callers[c].Drains? then s.gate.accepts > 0 else s.gate.active
  {
    RunInv(Init(), ops, s);
    hide Reaches;
    NobodyHolds(s);
    assert WaitsForReason(s.gate, s.callers[c]);
  }

  /** An accept enters an open gate and waits at a held one; the last to leave wakes everybody who waits. */
  lemma AcceptPasses(ops: seq<Op>, s: System)
    requires Reaches(Init(), ops, s)
    ensures Enabled(s, BeginAccept)
    ensures var c, t := |s.callers|, Next(s, BeginAccept);
            if s.gate.active then
              t.gate == s.gate && |t.callers| == c + 1 && t.callers[..c] == s.callers && Suspended(t.callers[c]) && !Enabled(t, Wake(c))
            else
              && t == System(s.gate.(accepts := s.gate.accepts + 1), s.callers + [Accepts])
              && Enabled(t, Finish(c)) && Enabled(t, Lose(c))
              && var u := Next(t, Finish(c));
                 && u.gate.accepts == s.gate.accepts && !u.gate.active && u.callers == s.callers + [Gone]
                 && (u.gate.accepts == 0 ==>
                       forall d :: 0 <= d < |u.callers| && Suspended(u.callers[d]) ==> Enabled(u, Wake(d)))
  {
    RunInv(Init(), ops, s);
    hide Reaches;
    forall d | 0 <= d < |s.callers| ensures Suspended(s.callers[d]) ==> s.callers[d].at <= s.gate.signals {
      assert WaitsForReason(s.gate, s.callers[d]);
    }
  }

  /** The end of a maintenance body reopens the gate and wakes everybody who waits. */
  lemma MaintenanceEnds(ops: seq<Op>, s: System, c: nat)
    requires Reaches(Init(), ops, s) && c < |s.callers| && s.callers[c].Maintains?
    ensures Enabled(s, Finish(c)) && Enabled(s, Lose(c))
    ensures var t := Next(s, Finish(c));
            && !t.gate.active && t.gate.accepts == s.gate.accepts && t.callers == s.callers[c := Gone]
            && (forall d :: 0 <= d < |t.callers| && Suspended(t.callers[d]) ==> Enabled(t, Wake(d)))
  {
    RunInv(Init(), ops, s);
    hide Reaches;
    forall d | 0 <= d < |s.callers| ensures Suspended(s.callers[d]) ==> s.callers[d].at <= s.gate.signals {
      assert WaitsForReason(s.gate, s.callers[d]);
    }
  }

  // ----- what a lost exit leads to -----

  ghost predicate Any(s: System, p: Caller -> bool) {
    exists c :: 0 <= c < |s.callers| && p(s.callers[c])
  }

  predicate IsStranded(c: Caller) { c.Stranded? }

  predicate IsUncounted(c: Caller) { c.Uncounted? }

  predicate IsMaintaining(c: Caller) { c.Maintains? }

  /** Some continuation reopens the gate, so that accepts enter. */
  ghost predicate CanOpen(s: System) {
    exists ops, t :: Reaches(s, ops, t) && !t.gate.active
  }

  /** Some continuation runs a maintenance body. */
  ghost predicate CanMaintain(s: System) {
    exists ops, t :: Reaches(s, ops, t) && Any(t, IsMaintaining)
  }

  lemma {:induction false} LostForGood(s: System, ops: seq<Op>, t: System, c: nat)
    requires Reaches(s, ops, t) && c < |s.callers| && (s.callers[c].Stranded? || s.callers[c].Uncounted?)
    ensures c < |t.callers| && t.callers[c] == s.callers[c]
    decreases |ops|
  {
    if ops != [] { LostForGood(Next(s, ops[0]), ops[1..], t, c); }
  }

  lemma OneStep(s: System, op: Op)
    requires Enabled(s, op)
    ensures Reaches(s, [op], Next(s, op))
  {
    assert [op][1..] == [];
  }

  lemma {:induction false} Compose(s: System, ops: seq<Op>, t: System, more: seq<Op>, u: System)
    requires Reaches(s, ops, t) && Reaches(t, more, u)
    ensures Reaches(s, ops + more, u)
    decreases |ops|
  {
    if ops == [] {
      assert ops + more == more;
    } else {
      Compose(Next(s, ops[0]), ops[1..], t, more, u);
      assert (ops + more)[1..] == ops[1..] + more;
    }
  }

  /** The caller that holds the gate, if it is not stranded, can give it back: by its end or its cancellation. */
  lemma GivesBack(s: System) returns (ops: seq<Op>, t: System)
    requires Inv(s) && !Any(s, IsStranded)
    ensures Reaches(s, ops, t) && !t.gate.active
    ensures Any(t, IsUncounted) ==> Any(s, IsUncounted)
  {
    if !s.gate.active { return [], s; }
    CountZero(s.callers, Holds);
    var c :| 0 <= c < |s.callers| && Holds(s.callers[c]);
    assert !IsStranded(s.callers[c]);
    var op := if s.callers[c].Drains? then Cancel(c) else Finish(c);
    OneStep(s, op);
    return [op], Next(s, op);
  }

  /** The gate can be given back exactly when no maintenance was cut off before it could. */
  lemma OpensIffNoneStranded(before: seq<Op>, s: System)
    requires Reaches(Init(), before, s)
    ensures CanOpen(s) <==> !Any(s, IsStranded)
  {
    RunInv(Init(), before, s);
    if !Any(s, IsStranded) {
      var ops, t := GivesBack(s);
    }
    if CanOpen(s) && Any(s, IsStranded) {
      var c :| 0 <= c < |s.callers| && IsStranded(s.callers[c]);
      var ops, t :| Reaches(s, ops, t) && !t.gate.active;
      LostForGood(s, ops, t, c);
      RunInv(s, ops, t);
      NobodyHolds(t);
      assert Holds(t.callers[c]);
      assert false;
    }
  }

  /** Accepts that still can leave, leave one by one. */
  lemma {:induction false} DrainsOut(s: System) returns (ops: seq<Op>, t: System)
    requires Inv(s) && !s.gate.active && !Any(s, IsUncounted)
    ensures Reaches(s, ops, t) && !t.gate.active && t.gate.accepts == 0
    decreases s.gate.accepts
  {
    NobodyHolds(s);
    if s.gate.accepts == 0 { return [], s; }
    CountZero(s.callers, Counted);
    var c :| 0 <= c < |s.callers| && Counted(s.callers[c]);
    assert !IsUncounted(s.callers[c]);
    OneStep(s, Finish(c));
    var n := Next(s, Finish(c));
    RunInv(s, [Finish(c)], n);
    forall d | 0 <= d < |n.callers| ensures !IsUncounted(n.callers[d]) { assert !IsUncounted(s.callers[d]); }
    hide Inv, Next, Enabled;
    var rest;
    rest, t := DrainsOut(n);
    Compose(s, [Finish(c)], n, rest, t);
    ops := [Finish(c)] + rest;
  }

  /** A maintenance body can run exactly when no maintenance and no accept was cut off before it could leave. */
  lemma MaintainsIffNoneLost(before: seq<Op>, s: System)
    requires Reaches(Init(), before, s)
    ensures CanMaintain(s) <==> !Any(s, IsStranded) && !Any(s, IsUncounted)
  {
    RunInv(Init(), before, s);
    if !Any(s, IsStranded) && !Any(s, IsUncounted) {
      BodyRuns(s);
    }
    if CanMaintain(s) {
      var ops, t :| Reaches(s, ops, t) && Any(t, IsMaintaining);
      RunInv(s, ops, t);
      forall c | 0 <= c < |s.callers| ensures !IsStranded(s.callers[c]) && !IsUncounted(s.callers[c]) {
        if IsStranded(s.callers[c]) || IsUncounted(s.callers[c]) {
          LostForGood(s, ops, t, c);
          NoneBesideBody(t, c);
        }
      }
    }
  }

  lemma NoneBesideBody(s: System, c: nat)
    requires Inv(s) && Any(s, IsMaintaining) && c < |s.callers|
    ensures !s.callers[c].Stranded? && !s.callers[c].Uncounted?
  {
    var d :| 0 <= d < |s.callers| && IsMaintaining(s.callers[d]);
    assert WaitsForReason(s.gate, s.callers[d]);
    NobodyHolds(s);
    if s.callers[c].Stranded? {
      if c < d { OnlyOne(s.callers, c, d); } else { OnlyOne(s.callers, d, c); }
      assert false;
    }
  }

  lemma BodyRuns(s: System)
    requires Inv(s) && !Any(s, IsStranded) && !Any(s, IsUncounted)
    ensures CanMaintain(s)
  {
    hide Inv;
    var ops, t := GivesBack(s);
    RunInv(s, ops, t);
    var more, u := DrainsOut(t);
    OneStep(u, BeginMaintenance);
    var v := Next(u, BeginMaintenance);
    assert IsMaintaining(v.callers[|u.callers|]);
    Compose(s, ops, t, more, u);
    Compose(s, ops + more, u, [BeginMaintenance], v);
  }

  // ----- the object -----

  class MailGate {
    var active: bool
    var accepts: int
    var signals: nat

    ghost function View(): (g: Gate)
      reads this
    {
      Gate(active, accepts, signals)
    }

    constructor ()
      ensures View() == Init().gate
    {
      active, accepts, signals := false, 0, 0;
    }

    /** Up to the next suspension, or the body. */
    method Begin() returns (c: Caller)
      modifies this
      ensures (View(), c) == TryBegin(old(View()))
    {
      if active { return AwaitsGate(signals); }
      active := true;
      if accepts != 0 { return Drains(signals); }
      c := Maintains;
    }

    method EndMaintenance()
      modifies this
      ensures View() == Reopen(old(View()))
    {
      active := false;
      signals := signals + 1;
    }

    method EnterAccept() returns (c: Caller)
      modifies this
      ensures (View(), c) == TryEnter(old(View()))
    {
      if active { return AwaitsOpening(signals); }
      accepts := accepts + 1;
      c := Accepts;
    }

    /** The counter cannot underflow: the caller is one of those it counts. */
    method LeaveAccept()
      requires accepts > 0
      modifies this
      ensures View() == Leave(old(View())) && accepts >= 0
    {
      accepts := accepts - 1;
      if accepts == 0 { signals := signals + 1; }
    }
  }
}
