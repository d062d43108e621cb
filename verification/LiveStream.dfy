/**
 The live event stream: a bounded ring of numbered events with a generation, and a
 consumer that polls it and can be resumed from any cursor it has handed out.
 */
module LiveStream {
  import opened Seqs

  type Generation = nat       // a fresh identifier, compared only for equality

  datatype Kind =
    | Connect | RcptAccepted | RcptRejected | Queued | Disconnect | Error   // of this process
    | MailboxDelivery | DeliveryCommitted                                   // stored, and as shown
    | Other(name: nat)

  datatype Event = Event(kind: Kind, body: nat)

  datatype Stored = Stored(no: nat, event: Event)

  datatype Ring = Ring(max: nat, events: seq<Stored>, generation: Generation, next: nat)

  datatype Reason = GenerationChanged | RingOverrun | CursorAhead

  datatype Window = Window(generation: Generation, events: seq<Stored>, gap: Option<Reason>, oldest: nat, latest: int)

  // ----- the ring -----

  function Publish(r: Ring, e: Event): (s: Ring) {
    var item := Stored(r.next, e);
    r.(events := if r.max == 0 then [] else if |r.events| < r.max then r.events + [item] else r.events[|r.events| + 1 - r.max..] + [item],
       next := r.next + 1)
  }

  function Clear(r: Ring, renewed: Generation): (s: Ring) {
    Ring(r.max, [], renewed, 1)
  }

  function Oldest(r: Ring): (n: nat) {
    if r.events == [] then r.next else r.events[0].no
  }

  /** The stored events numbered above `n`. */
  function Since(events: seq<Stored>, n: int): (r: seq<Stored>) {
    if events == [] then []
    else
      var rest := Since(events[..|events| - 1], n);
      if events[|events| - 1].no > n then rest + [events[|events| - 1]] else rest
  }

  function Lost(r: Ring, expected: Generation, n: int): (g: Option<Reason>) {
    if expected != r.generation then Some(GenerationChanged)
    else if n < Oldest(r) - 1 then Some(RingOverrun)
    else if n > r.next - 1 then Some(CursorAhead)
    else None
  }

  function StreamWindow(r: Ring, expected: Generation, n: int): (w: Window) {
    var gap := Lost(r, expected, n);
    var events := if gap.Some? then r.events else if n == r.next - 1 then [] else Since(r.events, n);
    Window(r.generation, events, gap, Oldest(r), r.next - 1)
  }

  // ----- the ring against everything published -----

  /** The numbered events after `from` up to `to`, out of the whole log of a generation. */
  ghost function Range(log: seq<Event>, from: nat, to: nat): (r: seq<Stored>)
    requires to <= |log|
  {
    if to <= from then [] else Range(log, from, to - 1) + [Stored(to, log[to - 1])]
  }

  /** The ring holds the latest `max` events of its generation, numbered without a hole up to the latest. */
  ghost predicate RingOk(r: Ring, log: seq<Event>) {
    && r.next == |log| + 1
    && |r.events| == (if |log| <= r.max then |log| else r.max)
    && r.events == Range(log, |log| - |r.events|, |log|)
  }

  lemma {:induction false} RangeLength(log: seq<Event>, from: nat, to: nat)
    requires from <= to <= |log|
    ensures |Range(log, from, to)| == to - from
  {
    if from < to { RangeLength(log, from, to - 1); }
  }

  lemma {:induction false} RangeStable(log: seq<Event>, more: seq<Event>, from: nat, to: nat)
    requires to <= |log|
    ensures Range(log + more, from, to) == Range(log, from, to)
  {
    if from < to { RangeStable(log, more, from, to - 1); }
  }

  lemma {:induction false} RangeSplit(log: seq<Event>, a: nat, b: nat, c: nat)
    requires a <= b <= c <= |log|
    ensures Range(log, a, c) == Range(log, a, b) + Range(log, b, c)
  {
    if b < c {
      RangeSplit(log, a, b, c - 1);
    }
  }

  lemma RangeHead(log: seq<Event>, a: nat, c: nat)
    requires a < c <= |log|
    ensures Range(log, a, c) == [Stored(a + 1, log[a])] + Range(log, a + 1, c)
  {
    RangeSplit(log, a, a + 1, c);
    assert Range(log, a, a) == [];
    assert Range(log, a, a + 1) == [Stored(a + 1, log[a])];
  }

  /** The stretch up to a new event, and the same without its first. */
  lemma RangeGrows(log: seq<Event>, e: Event, from: nat)
    requires from <= |log|
    ensures Range(log + [e], from, |log| + 1) == Range(log, from, |log|) + [Stored(|log| + 1, e)]
    ensures from < |log| ==> Range(log, from, |log|) == [Stored(from + 1, log[from])] + Range(log, from + 1, |log|)
  {
    RangeStable(log, [e], from, |log|);
    if from < |log| { RangeHead(log, from, |log|); }
  }

  lemma RangeNothing(log: seq<Event>, n: nat)
    requires n <= |log|
    ensures Range(log, n, n) == []
  {
  }

  lemma PublishRoom(r: Ring, log: seq<Event>, e: Event)
    requires RingOk(r, log) && |log| < r.max
    ensures RingOk(Publish(r, e), log + [e])
  {
    hide Range;
    RangeGrows(log, e, 0);
  }

  /** A full ring drops its oldest event. */
  lemma PublishFull(r: Ring, log: seq<Event>, e: Event)
    requires RingOk(r, log) && 0 < r.max <= |log|
    ensures RingOk(Publish(r, e), log + [e])
  {
    hide Range;
    var n, from := |log|, |log| - r.max;
    var rest := Range(log, from + 1, n);
    RangeGrows(log, e, from);
    RangeGrows(log, e, from + 1);
    Shifted(r.events, Stored(from + 1, log[from]), rest, Stored(n + 1, e));
    assert Publish(r, e).events == rest + [Stored(n + 1, e)];
    assert Range(log + [e], from + 1, n + 1) == rest + [Stored(n + 1, e)];
  }

  lemma Shifted(events: seq<Stored>, first: Stored, rest: seq<Stored>, last: Stored)
    requires events == [first] + rest
    ensures events[1..] + [last] == rest + [last] && |rest + [last]| == |events|
  {
    assert events[1..] == rest;
  }

  lemma PublishNothing(r: Ring, log: seq<Event>, e: Event)
    requires RingOk(r, log) && r.max == 0
    ensures RingOk(Publish(r, e), log + [e])
  {
    hide Range;
    RangeNothing(log + [e], |log| + 1);
  }

  lemma PublishOk(r: Ring, log: seq<Event>, e: Event)
    requires RingOk(r, log)
    ensures RingOk(Publish(r, e), log + [e])
  {
    hide RingOk, Publish;
    if r.max == 0 {
      PublishNothing(r, log, e);
    } else if |log| < r.max {
      PublishRoom(r, log, e);
    } else {
      PublishFull(r, log, e);
    }
  }

  lemma ClearOk(r: Ring, renewed: Generation)
    ensures RingOk(Clear(r, renewed), [])
  {
  }

  lemma {:induction false} SinceRange(log: seq<Event>, a: nat, b: nat, n: nat)
    requires a <= b <= |log| && a <= n
    ensures Since(Range(log, a, b), n) == if n <= b then Range(log, n, b) else []
  {
    if a < b {
      var front := Range(log, a, b - 1);
      assert (front + [Stored(b, log[b - 1])])[..|front|] == front;
      SinceRange(log, a, b - 1, n);
    }
  }

  lemma RangeFirst(r: Ring, log: seq<Event>)
    requires RingOk(r, log)
    ensures Oldest(r) == |log| - |r.events| + 1
  {
    if r.events != [] {
      RangeHead(log, |log| - |r.events|, |log|);
    }
  }

  lemma LostExact(r: Ring, log: seq<Event>, expected: Generation, n: nat)
    requires RingOk(r, log)
    ensures Lost(r, expected, n) == None <==> expected == r.generation && Oldest(r) - 1 <= n <= |log|
    ensures Lost(r, expected, n) == Some(GenerationChanged) <==> expected != r.generation
    ensures Lost(r, expected, n) == Some(RingOverrun) <==> expected == r.generation && n < Oldest(r) - 1
    ensures Lost(r, expected, n) == Some(CursorAhead) <==> expected == r.generation && |log| < n
  {
    RangeFirst(r, log);
    hide Range;
  }

  lemma WindowEvents(r: Ring, log: seq<Event>, n: nat)
    requires RingOk(r, log)
    ensures Oldest(r) - 1 <= n <= |log| ==>
              (if n == |log| then [] else Since(r.events, n)) == Range(log, n, |log|)
    ensures 1 <= Oldest(r) && r.events == Range(log, Oldest(r) - 1, |log|)
  {
    RangeFirst(r, log);
    var from := |log| - |r.events|;
    if from <= n < |log| {
      SinceRange(log, from, |log|, n);
    } else {
      assert n == |log| ==> Range(log, n, |log|) == [];
    }
    hide Range, Since;
  }

  /**
   A window without a gap is exactly the events after the cursor; a window with a gap is
   everything still stored; and a gap is reported exactly when an event after the cursor
   is gone, the cursor is ahead, or the generation is another one.
   */
  lemma WindowExact(r: Ring, log: seq<Event>, expected: Generation, n: nat)
    requires RingOk(r, log)
    ensures var w := StreamWindow(r, expected, n);
            && w.generation == r.generation && w.latest == |log| && 1 <= w.oldest <= |log| + 1
            && w.oldest == (if |log| <= r.max then 1 else |log| - r.max + 1)
            && (w.gap == None <==> expected == r.generation && w.oldest - 1 <= n <= |log|)
            && (w.gap == Some(GenerationChanged) <==> expected != r.generation)
            && (w.gap == Some(RingOverrun) <==> expected == r.generation && n < w.oldest - 1)
            && (w.gap == Some(CursorAhead) <==> expected == r.generation && |log| < n)
            && w.events == Range(log, if w.gap == None then n else w.oldest - 1, |log|)
  {
    RangeFirst(r, log);
    LostExact(r, log, expected, n);
    WindowEvents(r, log, n);
    hide Range, Since, Oldest, Lost;
  }

  // ----- what a consumer hands out -----

  datatype Out =
    | Item(generation: Generation, no: int, payload: Event)
    | Mark(generation: Generation, no: int)
    | Gap(reason: Reason, previousGeneration: Generation, previousNo: int, oldest: nat, latest: int,
          generation: Generation, no: int)

  /** The payload shown for an event, if it is shown at all. */
  function Normalize(e: Event): (p: Option<Event>) {
    match e.kind
    case Connect | RcptAccepted | RcptRejected | Queued | Disconnect | Error => Some(e)
    case MailboxDelivery => Some(e.(kind := DeliveryCommitted))
    case _ => None
  }

  /** One record per event that is shown, each with its own cursor. */
  function Yields(g: Generation, items: seq<Stored>): (r: seq<Out>) {
    if items == [] then []
    else
      var rest := Yields(g, items[..|items| - 1]);
      var last := items[|items| - 1];
      match Normalize(last.event)
      case Some(p) => rest + [Item(g, last.no, p)]
      case None => rest
  }

  /** The records of one non-empty window: a mark follows when the last event is not shown. */
  function Batch(g: Generation, items: seq<Stored>): (r: seq<Out>)
    requires items != []
  {
    var shown := Yields(g, items);
    var lastShown := if shown == [] then 0 else shown[|shown| - 1].no;
    var last := items[|items| - 1].no;
    if lastShown != last then shown + [Mark(g, last)] else shown
  }

  // ----- the consumer -----

  /**
   `base` and `segment` are history: where the cursor stood after the last gap, and
   everything handed out since.
   */
  datatype Consumer =
    | Idle
    | Starting(generation: Generation)
    | Streaming(generation: Generation, last: int, base: int, segment: seq<Out>)

  datatype Cursor = Cursor(generation: Generation, no: int)

  /** The generation is read first; a cursor of that generation is resumed, anything else replays. */
  function Begin(r: Ring, after: Option<Cursor>): (c: Consumer) {
    if after.Some? && after.value.generation == r.generation then
      var n := if after.value.no > 0 then after.value.no else 0;
      Streaming(r.generation, n, n, [])
    else
      Starting(r.generation)
  }

  /** The initial replay of what the ring holds; without anything to show it starts from zero. */
  function Replay(r: Ring): (c: Consumer) {
    if Yields(r.generation, r.events) == [] then Streaming(r.generation, 0, 0, [])
    else Take(Streaming(r.generation, Oldest(r) - 1, Oldest(r) - 1, []), r.events)
  }

  /** Hands out the events of a window and moves the cursor behind them. */
  function Take(c: Consumer, events: seq<Stored>): (d: Consumer)
    requires c.Streaming?
    ensures d.Streaming?
  {
    if events == [] then c
    else c.(last := events[|events| - 1].no, segment := c.segment + Batch(c.generation, events))
  }

  /** After a gap the consumer goes on from the oldest event there is. */
  function Restart(w: Window): (d: Consumer) {
    var n := if w.oldest > 0 then w.oldest - 1 else 0;
    Streaming(w.generation, n, n, [])
  }

  function Poll(r: Ring, c: Consumer): (d: Consumer)
    requires c.Streaming?
    ensures d.Streaming?
  {
    var w := StreamWindow(r, c.generation, c.last);
    Take(if w.gap.None? then c else Restart(w), w.events)
  }

  /** The gap record of a poll, if it has one. */
  function GapOf(r: Ring, c: Consumer): (g: Option<Out>)
    requires c.Streaming?
  {
    var w := StreamWindow(r, c.generation, c.last);
    match w.gap
    case None => None
    case Some(reason) =>
      Some(Gap(reason, c.generation, c.last, w.oldest, w.latest, w.generation, if w.oldest > 0 then w.oldest - 1 else 0))
  }

  // ----- exactly once -----

  ghost function Items(out: seq<Out>): (r: seq<Out>) {
    if out == [] then []
    else Items(out[..|out| - 1]) + if out[|out| - 1].Item? then [out[|out| - 1]] else []
  }

  /** Where the cursor stands after the records `out`. */
  ghost function Position(base: int, out: seq<Out>): (n: int) {
    if out == [] then base else out[|out| - 1].no
  }

  /** What a consumer that starts at `from` and stands at `to` must have shown. */
  ghost function Due(log: seq<Event>, g: Generation, from: int, to: int): (r: seq<Out>) {
    if 0 <= from <= to <= |log| then Yields(g, Range(log, from, to)) else []
  }

  /**
   Each record moves the cursor forward and shows exactly what became due between the
   cursor before it and its own.
   */
  ghost predicate SegmentOk(log: seq<Event>, g: Generation, base: int, out: seq<Out>) {
    if out == [] then 0 <= base <= |log|
    else
      var before, o := out[..|out| - 1], out[|out| - 1];
      && SegmentOk(log, g, base, before)
      && !o.Gap? && o.generation == g
      && Position(base, before) < o.no <= |log|
      && Due(log, g, Position(base, before), o.no) == if o.Item? then [o] else []
  }

  lemma {:induction false} ItemsConcat(a: seq<Out>, b: seq<Out>)
    ensures Items(a + b) == Items(a) + Items(b)
  {
    if b == [] {
      assert a + b == a;
    } else {
      assert (a + b)[..|a + b| - 1] == a + b[..|b| - 1];
      ItemsConcat(a, b[..|b| - 1]);
    }
  }

  lemma {:induction false} YieldsConcat(g: Generation, a: seq<Stored>, b: seq<Stored>)
    ensures Yields(g, a + b) == Yields(g, a) + Yields(g, b)
  {
    if b == [] {
      assert a + b == a;
    } else {
      assert (a + b)[..|a + b| - 1] == a + b[..|b| - 1];
      YieldsConcat(g, a, b[..|b| - 1]);
    }
  }

  lemma DueSplit(log: seq<Event>, g: Generation, a: int, b: int, c: int)
    requires 0 <= a <= b <= c <= |log|
    ensures Due(log, g, a, c) == Due(log, g, a, b) + Due(log, g, b, c)
  {
    RangeSplit(log, a, b, c);
    YieldsConcat(g, Range(log, a, b), Range(log, b, c));
  }

  lemma DueStable(log: seq<Event>, more: seq<Event>, g: Generation, a: int, b: int)
    requires 0 <= a <= b <= |log|
    ensures Due(log + more, g, a, b) == Due(log, g, a, b)
  {
    RangeStable(log, more, a, b);
  }

  lemma EmptySegment(log: seq<Event>, g: Generation, base: int)
    requires 0 <= base <= |log|
    ensures SegmentOk(log, g, base, [])
  {
  }

  /** Everything due between the start and the cursor has been shown, once and in order, and nothing else. */
  lemma {:induction false} SegmentShowsDue(log: seq<Event>, g: Generation, base: int, out: seq<Out>)
    requires SegmentOk(log, g, base, out)
    ensures 0 <= base <= Position(base, out) <= |log|
    ensures Items(out) == Due(log, g, base, Position(base, out))
  {
    if out == [] {
      DueEmpty(log, g, base);
    } else {
      var before := out[..|out| - 1];
      SegmentShowsDue(log, g, base, before);
      DueSplit(log, g, base, Position(base, before), Position(base, out));
    }
  }

  /** The same holds at every earlier record. */
  lemma {:induction false} SegmentPrefix(log: seq<Event>, g: Generation, base: int, out: seq<Out>, k: nat)
    requires SegmentOk(log, g, base, out) && k <= |out|
    ensures SegmentOk(log, g, base, out[..k])
  {
    if k == |out| {
      assert out[..k] == out;
    } else {
      SegmentPrefix(log, g, base, out[..|out| - 1], k);
      assert out[..|out| - 1][..k] == out[..k];
    }
  }

  lemma SegmentSnoc(log: seq<Event>, g: Generation, base: int, out: seq<Out>, o: Out)
    requires SegmentOk(log, g, base, out) && !o.Gap? && o.generation == g
    requires Position(base, out) < o.no <= |log|
    requires Due(log, g, Position(base, out), o.no) == if o.Item? then [o] else []
    ensures SegmentOk(log, g, base, out + [o])
  {
    assert (out + [o])[..|out|] == out;
    hide Due;
  }

  lemma DueNext(log: seq<Event>, g: Generation, a: int, b: int)
    requires 0 <= a < b <= |log|
    ensures Due(log, g, a, b) == Due(log, g, a, b - 1) +
              (match Normalize(log[b - 1]) case Some(p) => [Item(g, b, p)] case None => [])
  {
    var front := Range(log, a, b - 1);
    assert (front + [Stored(b, log[b - 1])])[..|front|] == front;
  }

  lemma DueEmpty(log: seq<Event>, g: Generation, a: int)
    ensures Due(log, g, a, a) == []
  {
  }

  /** Showing a stretch of the log event by event extends the segment. */
  lemma {:induction false} SegmentYields(log: seq<Event>, g: Generation, base: int, out: seq<Out>, end: int)
    requires SegmentOk(log, g, base, out) && Position(base, out) <= end <= |log|
    ensures var shown := Due(log, g, Position(base, out), end);
            && SegmentOk(log, g, base, out + shown)
            && Position(base, out) <= Position(base, out + shown) <= end
            && Due(log, g, Position(base, out + shown), end) == []
    decreases end - Position(base, out)
  {
    hide SegmentOk, Due, Normalize, Items;
    SegmentShowsDue(log, g, base, out);
    var from := Position(base, out);
    if from == end {
      DueEmpty(log, g, from);
      assert out + [] == out;
    } else {
      SegmentYields(log, g, base, out, end - 1);
      DueNext(log, g, from, end);
      var shown := Due(log, g, from, end - 1);
      var here := Position(base, out + shown);
      DueNext(log, g, here, end);
      match Normalize(log[end - 1])
      case None =>
        assert shown + [] == shown;
      case Some(p) =>
        var o := Item(g, end, p);
        assert [] + [o] == [o];
        SegmentSnoc(log, g, base, out + shown, o);
        assert out + (shown + [o]) == (out + shown) + [o];
        DueEmpty(log, g, end);
    }
  }

  /** The records of a stretch of the log: what is due, and a mark if the last of it is not shown. */
  lemma BatchIs(log: seq<Event>, g: Generation, from: nat, end: nat)
    requires from < end <= |log|
    ensures var items := Range(log, from, end); var shown := Due(log, g, from, end);
            && items != [] && items[|items| - 1].no == end
            && Batch(g, items) == shown + if Position(from, shown) == end then [] else [Mark(g, end)]
  {
    var items := Range(log, from, end);
    assert items[|items| - 1] == Stored(end, log[end - 1]);
    var shown := Due(log, g, from, end);
    assert shown == Yields(g, items);
    hide Yields, Range, Due;
    assert shown + [] == shown;
  }

  /** One window extends the segment up to the latest event. */
  lemma SegmentBatch(log: seq<Event>, g: Generation, base: int, out: seq<Out>, end: int)
    requires SegmentOk(log, g, base, out) && Position(base, out) < end <= |log|
    ensures 0 <= Position(base, out)
    ensures var items := Range(log, Position(base, out), end);
            && items != [] && items[|items| - 1].no == end
            && SegmentOk(log, g, base, out + Batch(g, items))
            && Position(base, out + Batch(g, items)) == end
  {
    hide SegmentOk, Range, Items, Due, Batch;
    SegmentShowsDue(log, g, base, out);
    var from := Position(base, out);
    BatchIs(log, g, from, end);
    SegmentYields(log, g, base, out, end);
    var shown := Due(log, g, from, end);
    assert Position(base, out + shown) == Position(from, shown);
    if Position(from, shown) == end {
      assert shown + [] == shown;
    } else {
      var mark := Mark(g, end);
      SegmentSnoc(log, g, base, out + shown, mark);
      assert (out + shown) + [mark] == out + (shown + [mark]);
    }
  }

  /** The payload a stored event must be shown with: events of this process as they are, committed deliveries renamed. */
  ghost predicate ShownAs(e: Event, p: Event) {
    || (e.kind in {Connect, RcptAccepted, RcptRejected, Queued, Disconnect, Error} && p == e)
    || (e.kind.MailboxDelivery? && p == Event(DeliveryCommitted, e.body))
  }

  lemma NormalizeIs(e: Event)
    ensures forall p :: Normalize(e) == Some(p) <==> ShownAs(e, p)
  {
  }

  /** What is due is a record for every event of the stretch that is to be shown, and nothing else. */
  lemma {:induction false} DueIs(log: seq<Event>, g: Generation, a: nat, b: nat, o: Out)
    requires a <= b <= |log|
    ensures o in Due(log, g, a, b) <==>
            o.Item? && o.generation == g && a < o.no <= b && ShownAs(log[o.no - 1], o.payload)
    decreases b
  {
    hide Normalize, ShownAs, Due;
    if a == b {
      DueEmpty(log, g, a);
    } else {
      DueIs(log, g, a, b - 1, o);
      DueNext(log, g, a, b);
      NormalizeIs(log[b - 1]);
    }
  }

  /** A gap record names what the consumer lost and where it goes on: in front of the oldest event there is. */
  lemma GapIs(r: Ring, log: seq<Event>, c: Consumer)
    requires RingOk(r, log) && c.Streaming? && 0 <= c.last
    ensures var front := if |log| <= r.max then 0 else |log| - r.max; var lost := GapOf(r, c);
            && (lost.None? <==> c.generation == r.generation && front <= c.last <= |log|)
            && (lost.Some? ==>
                  && lost.value == Gap(lost.value.reason, c.generation, c.last, front + 1, |log|, r.generation, front)
                  && (lost.value.reason.GenerationChanged? <==> c.generation != r.generation)
                  && (lost.value.reason.RingOverrun? <==> c.generation == r.generation && c.last < front)
                  && Poll(r, c).base == front)
  {
    WindowExact(r, log, c.generation, c.last);
    hide RingOk, StreamWindow, Range, Batch;
  }

  /**
   The initial replay: everything the ring holds that is to be shown, and a mark if its latest
   event is not; when there is nothing to show, the stream starts at zero.
   */
  lemma ReplayIs(r: Ring, log: seq<Event>)
    requires RingOk(r, log)
    ensures var front := if |log| <= r.max then 0 else |log| - r.max; var g := r.generation; var shown := Due(log, g, front, |log|);
            && (shown == [] ==> Replay(r) == Streaming(g, 0, 0, []))
            && (shown != [] ==>
                  Replay(r) == Streaming(g, |log|, front, shown + if Position(front, shown) == |log| then [] else [Mark(g, |log|)]))
  {
    var front := if |log| <= r.max then 0 else |log| - r.max;
    RingRange(r, log);
    RangeFirst(r, log);
    assert r.events == Range(log, front, |log|);
    if front < |log| {
      BatchIs(log, r.generation, front, |log|);
      assert [] + Batch(r.generation, r.events) == Batch(r.generation, r.events);
    } else {
      RangeNothing(log, front);
    }
    hide RingOk, Range, Batch;
  }

  /** A cursor of the current generation is resumed, one from before its first event at zero; anything else replays. */
  lemma BeginIs(r: Ring, after: Option<Cursor>)
    ensures after.Some? && after.value.generation == r.generation ==>
              var n := Begin(r, after).last;
              Begin(r, after) == Streaming(r.generation, n, n, []) && n >= 0 && n >= after.value.no && (n == 0 || n == after.value.no)
    ensures after.None? || after.value.generation != r.generation ==> Begin(r, after) == Starting(r.generation)
  {
  }

  // ----- the system -----

  datatype System = System(ring: Ring, logs: map<Generation, seq<Event>>, consumer: Consumer)

  datatype Op =
    | DoPublish(event: Event)
    | DoClear(renewed: Generation)
    | DoBegin(after: Option<Cursor>)
    | DoReplay
    | DoPoll

  predicate Enabled(s: System, op: Op) {
    match op
    case DoPublish(_) => s.ring.generation in s.logs
    case DoClear(renewed) => renewed !in s.logs
    case DoBegin(_) => true
    case DoReplay => s.consumer.Starting?
    case DoPoll => s.consumer.Streaming?
  }

  function Next(s: System, op: Op): (t: System)
    requires Enabled(s, op)
  {
    match op
    case DoPublish(e) =>
      var g := s.ring.generation;
      s.(ring := Publish(s.ring, e), logs := s.logs[g := s.logs[g] + [e]])
    case DoClear(renewed) => s.(ring := Clear(s.ring, renewed), logs := s.logs[renewed := []])
    case DoBegin(after) => s.(consumer := Begin(s.ring, after))
    case DoReplay => s.(consumer := Replay(s.ring))
    case DoPoll => s.(consumer := Poll(s.ring, s.consumer))
  }

  function Init(max: nat, g: Generation): (s: System) {
    System(Ring(max, [], g, 1), map[g := []], Idle)
  }

  /** A consumer that has handed out nothing yet may stand at any cursor, even one ahead of the log. */
  ghost predicate ConsumerOk(c: Consumer, logs: map<Generation, seq<Event>>) {
    c.Streaming? ==>
      && c.generation in logs
      && 0 <= c.base
      && c.last == Position(c.base, c.segment)
      && (c.segment == [] || SegmentOk(logs[c.generation], c.generation, c.base, c.segment))
  }

  ghost predicate Inv(s: System) {
    && s.ring.generation in s.logs
    && RingOk(s.ring, s.logs[s.ring.generation])
    && ConsumerOk(s.consumer, s.logs)
  }

  lemma {:induction false} SegmentGrows(log: seq<Event>, e: Event, g: Generation, base: int, out: seq<Out>)
    requires SegmentOk(log, g, base, out)
    ensures SegmentOk(log + [e], g, base, out)
  {
    if out != [] {
      var before := out[..|out| - 1];
      SegmentGrows(log, e, g, base, before);
      SegmentShowsDue(log, g, base, before);
      DueStable(log, [e], g, Position(base, before), out[|out| - 1].no);
    }
  }

  lemma PublishInv(s: System, e: Event)
    requires Inv(s)
    ensures Inv(Next(s, DoPublish(e)))
  {
    var g := s.ring.generation;
    PublishOk(s.ring, s.logs[g], e);
    if s.consumer.Streaming? && s.consumer.segment != [] && s.consumer.generation == g {
      SegmentGrows(s.logs[g], e, g, s.consumer.base, s.consumer.segment);
    }
    hide RingOk, SegmentOk, Publish;
  }

  /** From a sound segment, taking everything after the cursor leads to the latest event. */
  lemma TakeOk(log: seq<Event>, g: Generation, base: int, out: seq<Out>)
    requires SegmentOk(log, g, base, out)
    ensures 0 <= Position(base, out) <= |log|
    ensures var d := Take(Streaming(g, Position(base, out), base, out), Range(log, Position(base, out), |log|));
            && d.generation == g && d.base == base && out <= d.segment
            && d.last == Position(base, d.segment) == |log|
            && SegmentOk(log, g, base, d.segment)
  {
    SegmentShowsDue(log, g, base, out);
    hide SegmentOk, Batch, Items, Due;
    if Position(base, out) < |log| {
      SegmentBatch(log, g, base, out, |log|);
    }
  }

  /** A poll leaves the consumer sound, in the ring's generation and at its latest event. */
  lemma PollCatchesUp(r: Ring, log: seq<Event>, c: Consumer)
    requires RingOk(r, log) && c.Streaming? && 0 <= c.last && 0 <= c.base && c.last == Position(c.base, c.segment)
    requires c.generation == r.generation && c.segment != [] ==> SegmentOk(log, c.generation, c.base, c.segment)
    ensures var d := Poll(r, c);
            && d.generation == r.generation && d.last == |log| && 0 <= d.base
            && d.last == Position(d.base, d.segment)
            && SegmentOk(log, d.generation, d.base, d.segment)
            && (GapOf(r, c).None? ==> d.base == c.base && c.segment <= d.segment)
  {
    hide SegmentOk, RingOk, StreamWindow, Range, Take;
    WindowExact(r, log, c.generation, c.last);
    var w := StreamWindow(r, c.generation, c.last);
    if w.gap.None? {
      if c.segment == [] { EmptySegment(log, c.generation, c.base); }
      TakeOk(log, c.generation, c.base, c.segment);
    } else {
      EmptySegment(log, w.generation, w.oldest - 1);
      TakeOk(log, w.generation, w.oldest - 1, []);
    }
  }

  lemma PollInv(s: System)
    requires Inv(s) && s.consumer.Streaming?
    ensures Inv(Next(s, DoPoll))
  {
    var c := s.consumer;
    hide SegmentOk, RingOk, Poll, Items, Due;
    if c.segment != [] {
      SegmentShowsDue(s.logs[c.generation], c.generation, c.base, c.segment);
    }
    PollCatchesUp(s.ring, s.logs[s.ring.generation], c);
  }

  lemma NothingToShow(g: Generation)
    ensures Yields(g, []) == []
  {
  }

  /** The replay shows everything the ring holds, unless there is nothing to show. */
  lemma ReplayOk(r: Ring, log: seq<Event>)
    requires RingOk(r, log)
    ensures var d := Replay(r);
            && d.Streaming? && d.generation == r.generation && 0 <= d.base
            && d.last == Position(d.base, d.segment)
            && SegmentOk(log, d.generation, d.base, d.segment)
            && d.base == if d.segment == [] then 0 else Oldest(r) - 1
  {
    ReplayBase(r, log);
    NothingToShow(r.generation);
    EmptySegment(log, r.generation, 0);
    hide RingOk, SegmentOk, Range, Oldest, Yields, Take;
  }

  lemma BatchNotEmpty(g: Generation, items: seq<Stored>)
    requires items != [] && items[|items| - 1].no > 0
    ensures Batch(g, items) != []
  {
    hide Yields;
  }

  lemma RingRange(r: Ring, log: seq<Event>)
    requires RingOk(r, log)
    ensures 1 <= Oldest(r) <= |log| + 1 && r.events == Range(log, Oldest(r) - 1, |log|)
    ensures r.events != [] ==> r.events[|r.events| - 1].no > 0
  {
    hide Range, Oldest;
    var from := |log| - |r.events|;
    assert r.events == Range(log, from, |log|);
    RangeFirst(r, log);
    if r.events != [] { RangeLast(log, from, |log|); }
  }

  lemma RangeLast(log: seq<Event>, from: nat, to: nat)
    requires from < to <= |log|
    ensures var r := Range(log, from, to); r != [] && r[|r| - 1] == Stored(to, log[to - 1])
  {
  }

  lemma TakeShows(c: Consumer, events: seq<Stored>)
    requires c.Streaming? && (events != [] ==> events[|events| - 1].no > 0)
    ensures Take(c, events).segment == [] ==> events == []
  {
    if events != [] { BatchNotEmpty(c.generation, events); }
    hide Batch;
  }

  /** Taking everything the ring holds, from in front of its oldest event. */
  lemma ReplayBase(r: Ring, log: seq<Event>)
    requires RingOk(r, log)
    ensures 1 <= Oldest(r)
    ensures var d := Take(Streaming(r.generation, Oldest(r) - 1, Oldest(r) - 1, []), r.events);
            && d.generation == r.generation && d.base == Oldest(r) - 1
            && d.last == Position(d.base, d.segment) && SegmentOk(log, r.generation, d.base, d.segment)
            && (d.segment == [] ==> r.events == [])
  {
    RingRange(r, log);
    hide RingOk, SegmentOk, Range, Oldest, Take;
    var base := Oldest(r) - 1;
    EmptySegment(log, r.generation, base);
    TakeOk(log, r.generation, base, []);
    TakeShows(Streaming(r.generation, base, base, []), r.events);
  }

  lemma ReplayInv(s: System)
    requires Inv(s) && s.consumer.Starting?
    ensures Inv(Next(s, DoReplay))
  {
    hide SegmentOk, RingOk, Replay;
    ReplayOk(s.ring, s.logs[s.ring.generation]);
  }

  /**
   What one step does. A publish and a clear change the ring and the log of its generation, a
   renewed one after a clear, and are invisible to the consumer until its next step; the steps of
   the consumer touch nothing else.
   */
  lemma StepIs(s: System, op: Op)
    requires Inv(s)
    ensures Enabled(s, op) <==>
            match op
            case DoPublish(_) | DoBegin(_) => true
            case DoClear(renewed) => renewed !in s.logs
            case DoReplay => s.consumer.Starting?
            case DoPoll => s.consumer.Streaming?
    ensures Enabled(s, op) ==>
              var t := Next(s, op); var g := s.ring.generation;
              match op
              case DoPublish(e) => t.consumer == s.consumer && t.ring.generation == g && t.logs == s.logs[g := s.logs[g] + [e]]
              case DoClear(renewed) =>
                t.consumer == s.consumer && t.ring == Ring(s.ring.max, [], renewed, 1) && t.logs == s.logs[renewed := []]
              case DoBegin(after) =>
                && t.ring == s.ring && t.logs == s.logs && t.consumer.generation == g
                && (t.consumer.Streaming? <==> after.Some? && after.value.generation == g)
              case DoReplay | DoPoll =>
                && t.ring == s.ring && t.logs == s.logs && t.consumer.Streaming? && t.consumer.generation == g
                && (t.consumer.last == |s.logs[g]| || (op.DoReplay? && t.consumer == Streaming(g, 0, 0, [])))
  {
    if op.DoReplay? {
      ReplayIs(s.ring, s.logs[s.ring.generation]);
    } else if op.DoPoll? && Enabled(s, op) {
      var c := s.consumer;
      if c.segment != [] { SegmentShowsDue(s.logs[c.generation], c.generation, c.base, c.segment); }
      PollCatchesUp(s.ring, s.logs[s.ring.generation], c);
    }
    hide RingOk, SegmentOk, Replay, Poll, Due;
  }

  lemma StepInv(s: System, op: Op)
    requires Inv(s) && Enabled(s, op)
    ensures Inv(Next(s, op))
  {
    match op
    case DoPublish(e) => PublishInv(s, e);
    case DoClear(renewed) => ClearOk(s.ring, renewed); hide RingOk, SegmentOk;
    case DoBegin(after) => hide RingOk, SegmentOk;
    case DoReplay => ReplayInv(s);
    case DoPoll => PollInv(s);
  }

  /** Every state some interleaving of publishes, clears and consumer steps leads to. */
  ghost predicate Reaches(s: System, ops: seq<Op>, t: System)
    decreases |ops|
  {
    if ops == [] then s == t else Enabled(s, ops[0]) && Reaches(Next(s, ops[0]), ops[1..], t)
  }

  lemma {:induction false} RunInv(s: System, ops: seq<Op>, t: System)
    requires Inv(s) && Reaches(s, ops, t)
    ensures Inv(t)
    decreases |ops|
  {
    if ops != [] {
      StepInv(s, ops[0]);
      hide Inv, Next;
      RunInv(Next(s, ops[0]), ops[1..], t);
    }
  }

  /**
   Exactly once: in every reachable state, and at every record since the last gap, the
   records so far show every event between the segment's start and that record's cursor
   once, in order, and nothing else; the cursors increase strictly.
   */
  lemma ExactlyOnce(max: nat, g: Generation, ops: seq<Op>, t: System, k: nat)
    requires Reaches(Init(max, g), ops, t) && t.consumer.Streaming? && 0 < k <= |t.consumer.segment|
    ensures var c := t.consumer; var shown := c.segment[..k];
            && c.generation in t.logs
            && 0 <= c.base < Position(c.base, shown) <= |t.logs[c.generation]|
            && Items(shown) == Due(t.logs[c.generation], c.generation, c.base, Position(c.base, shown))
            && (forall o :: o in Items(shown) <==>
                  && o.Item? && o.generation == c.generation && c.base < o.no <= Position(c.base, shown)
                  && ShownAs(t.logs[c.generation][o.no - 1], o.payload))
            && (forall i, j :: 0 <= i < j < k ==> shown[i].no < shown[j].no)
            && c.last == Position(c.base, c.segment)
  {
    InitInv(max, g);
    RunInv(Init(max, g), ops, t);
    var c := t.consumer;
    var log, shown := t.logs[c.generation], c.segment[..k];
    SegmentPrefix(log, c.generation, c.base, c.segment, k);
    SegmentShowsDue(log, c.generation, c.base, shown);
    SegmentPrefix(log, c.generation, c.base, shown, k - 1);
    assert shown[..k - 1] == shown[..|shown| - 1];
    SegmentShowsDue(log, c.generation, c.base, shown[..k - 1]);
    forall i, j | 0 <= i < j < k ensures shown[i].no < shown[j].no {
      CursorsIncrease(log, c.generation, c.base, shown, i, j);
    }
    forall o ensures o in Items(shown) <==>
                       && o.Item? && o.generation == c.generation && c.base < o.no <= Position(c.base, shown)
                       && ShownAs(log[o.no - 1], o.payload)
    {
      DueIs(log, c.generation, c.base, Position(c.base, shown), o);
    }
    hide Reaches, Items, Due;
  }

  lemma InitInv(max: nat, g: Generation)
    ensures Inv(Init(max, g))
  {
  }

  /** Cursors in a sound segment increase strictly. */
  lemma {:induction false} CursorsIncrease(log: seq<Event>, g: Generation, base: int, out: seq<Out>, i: nat, j: nat)
    requires SegmentOk(log, g, base, out) && i < j < |out|
    ensures out[i].no < out[j].no
    decreases |out|
  {
    var before := out[..|out| - 1];
    if j < |out| - 1 {
      CursorsIncrease(log, g, base, before, i, j);
    } else if i < j - 1 {
      CursorsIncrease(log, g, base, before, i, j - 1);
    }
  }

  /**
   Resuming at any record of a segment continues it: what was shown up to that record and
   what the resumed consumer shows is together exactly what was due.
   */
  lemma ResumeSeamless(log: seq<Event>, more: seq<Event>, g: Generation, base: int, out: seq<Out>, k: nat, resumed: seq<Out>)
    requires SegmentOk(log, g, base, out) && k <= |out|
    requires SegmentOk(log + more, g, Position(base, out[..k]), resumed)
    ensures var end := Position(Position(base, out[..k]), resumed);
            base <= end && Items(out[..k] + resumed) == Due(log + more, g, base, end)
  {
    var mid := Position(base, out[..k]);
    SegmentPrefix(log, g, base, out, k);
    SegmentShowsDue(log, g, base, out[..k]);
    SegmentShowsDue(log + more, g, mid, resumed);
    ItemsConcat(out[..k], resumed);
    DueStable(log, more, g, base, mid);
    DueSplit(log + more, g, base, mid, Position(mid, resumed));
    hide SegmentOk, Due, Items;
  }

  /** A resumed consumer starts at the cursor of the record it resumes from. */
  lemma BeginAtCursor(r: Ring, log: seq<Event>, g: Generation, base: int, out: seq<Out>, k: nat)
    requires SegmentOk(log, g, base, out) && 0 < k <= |out| && r.generation == g
    ensures var at := Position(base, out[..k]);
            Begin(r, Some(Cursor(g, out[k - 1].no))) == Streaming(g, at, at, [])
  {
    SegmentPrefix(log, g, base, out, k);
    SegmentShowsDue(log, g, base, out[..k]);
  }
}
