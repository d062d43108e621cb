/** The ring buffer object and the polling loop that consumes it. */
module LiveFeed {
  import opened Seqs
  import opened LiveStream

  class LiveState {
    const max: nat
    var events: seq<Stored>
    var generation: Generation
    var next: nat

    ghost function View(): (r: Ring)
      reads this
    {
      Ring(max, events, generation, next)
    }

    constructor (max: nat, generation: Generation)
      ensures View() == Ring(max, [], generation, 1)
    {
      this.max, this.generation, events, next := max, generation, [], 1;
    }

    method PublishEvent(e: Event)
      modifies this
      ensures View() == Publish(old(View()), e)
    {
      var item := Stored(next, e);
      next := next + 1;
      if max == 0 {
        events := [];
      } else if |events| < max {
        events := events + [item];
      } else {
        events := events[|events| + 1 - max..] + [item];
      }
    }

    method ClearEvents(renewed: Generation)
      modifies this
      ensures View() == Clear(old(View()), renewed)
    {
      events, generation, next := [], renewed, 1;
    }

    method SelectSince(n: int) returns (r: seq<Stored>)
      ensures r == Since(events, n)
    {
      r := [];
      for i := 0 to |events|
        invariant r == Since(events[..i], n)
      {
        assert events[..i + 1][..i] == events[..i];
        if events[i].no > n { r := r + [events[i]]; }
      }
      assert events[..|events|] == events;
    }

    /** The atomic window a consumer polls. */
    method SnapshotStreamWindow(expected: Generation, n: int) returns (w: Window)
      ensures w == StreamWindow(View(), expected, n)
    {
      var latest := next - 1;
      var oldest := if events != [] then events[0].no else next;
      var gap := None;
      if expected != generation {
        gap := Some(GenerationChanged);
      } else if n < oldest - 1 {
        gap := Some(RingOverrun);
      } else if n > latest {
        gap := Some(CursorAhead);
      }
      if gap.Some? { return Window(generation, events, gap, oldest, latest); }
      if n == latest { return Window(generation, [], None, oldest, latest); }
      var newer := SelectSince(n);
      w := Window(generation, newer, None, oldest, latest);
    }
  }

  /** The records of one window, in the order they are yielded. */
  method YieldBatch(g: Generation, items: seq<Stored>) returns (out: seq<Out>)
    requires items != []
    ensures out == Batch(g, items)
  {
    out := [];
    var last := items[|items| - 1].no;
    var lastShown := 0;
    for i := 0 to |items|
      invariant out == Yields(g, items[..i])
      invariant lastShown == if out == [] then 0 else out[|out| - 1].no
    {
      assert items[..i + 1][..i] == items[..i];
      match Normalize(items[i].event)
      case None =>
      case Some(p) =>
        out := out + [Item(g, items[i].no, p)];
        lastShown := items[i].no;
    }
    assert items[..|items|] == items;
    if lastShown != last { out := out + [Mark(g, last)]; }
  }

  class LiveConsumer {
    const live: LiveState
    var generation: Generation
    var last: int
    ghost var base: int
    ghost var segment: seq<Out>

    ghost function View(): (c: Consumer)
      reads this
    {
      Streaming(generation, last, base, segment)
    }

    /** Resumes after a cursor of the current generation. */
    constructor (live: LiveState, no: int)
      ensures this.live == live && View() == Begin(live.View(), Some(Cursor(live.generation, no)))
    {
      this.live, generation := live, live.generation;
      var n := if no > 0 then no else 0;
      last, base, segment := n, n, [];
    }

    /** One turn of the polling loop: the records it yields and the cursor it leaves. */
    method PollOnce() returns (out: seq<Out>)
      modifies this
      ensures View() == Poll(live.View(), old(View()))
      ensures GapOf(live.View(), old(View())).None? ==> segment == old(segment) + out
      ensures GapOf(live.View(), old(View())).Some? ==> out == [GapOf(live.View(), old(View())).value] + segment
    {
      var w := live.SnapshotStreamWindow(generation, last);
      var gap: seq<Out> := [];
      if w.gap.Some? {
        var n := if w.oldest > 0 then w.oldest - 1 else 0;
        gap := [Gap(w.gap.value, generation, last, w.oldest, w.latest, w.generation, n)];
        generation, last, base, segment := w.generation, n, n, [];
      }
      var batch: seq<Out> := [];
      if w.events != [] {
        last := w.events[|w.events| - 1].no;
        batch := YieldBatch(generation, w.events);
        segment := segment + batch;
      }
      out := gap + batch;
    }
  }
}
