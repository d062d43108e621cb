/** The polling loop of the outbox tailer; what it reads from outside is given page by page. */
module MailboxTailer {
  import opened OutboxTailer

  /** The identity before, the page, and the identity after one read. */
  datatype Observation = Observation(before: nat, page: Page, after: nat)

  datatype PollResult = PollResult(tailer: Tailer, pages: nat, published: nat)

  /** What the loop makes of its next page. */
  ghost function AfterPage(r: PollResult, o: Observation): (e: PollResult) {
    var t := CheckIdentity(r.tailer, o.before);
    PollResult(Digest(t, o.before, o.page, o.after), r.pages + 1,
               r.published + if Foreign(t, o.before, o.page, o.after) then 0 else |Announced(o.page.rows)|)
  }

  /** The rest of a poll that has loaded `r.pages` pages. */
  ghost function PollFrom(r: PollResult, seen: seq<Observation>): (e: PollResult)
    requires |seen| >= MAX_PAGES
    decreases MAX_PAGES - r.pages
  {
    if r.pages >= MAX_PAGES then r
    else
      var o := seen[r.pages];
      if Again(CheckIdentity(r.tailer, o.before), o.before, o.page, o.after) then PollFrom(AfterPage(r, o), seen)
      else AfterPage(r, o)
  }

  // ----- the poll as a run of the state machine -----

  /** What happens outside the tailer. */
  predicate Outside(op: Op) {
    op.Append? || op.Deactivate? || op.Replace? || op.Restore?
  }

  ghost predicate Meanwhile(s: System, t: System) {
    exists ops :: Reaches(s, ops, t) && forall i :: 0 <= i < |ops| ==> Outside(ops[i])
  }

  lemma {:induction false} OutsideKeeps(s: System, ops: seq<Op>, t: System)
    requires Reaches(s, ops, t) && forall i :: 0 <= i < |ops| ==> Outside(ops[i])
    ensures t.tailer == s.tailer && t.phase == s.phase && t.pages == s.pages
    decreases |ops|
  {
    if ops != [] {
      assert Outside(ops[0]);
      OutsideKeeps(Next(s, ops[0]), ops[1..], t);
    }
  }

  lemma MeanwhileKeeps(s: System, t: System)
    requires Meanwhile(s, t)
    ensures t.tailer == s.tailer && t.phase == s.phase && t.pages == s.pages
  {
    var ops :| Reaches(s, ops, t) && forall i :: 0 <= i < |ops| ==> Outside(ops[i]);
    OutsideKeeps(s, ops, t);
  }

  /** One page in a run: checked in `s`, loaded in `m`, finished in `f`, anything happening outside in between. */
  ghost predicate Turn(s: System, m: System, f: System, o: Observation) {
    && Enabled(s, Check) && Meanwhile(Next(s, Check), m)
    && Enabled(m, Load) && Meanwhile(Next(m, Load), f)
    && Enabled(f, Finish)
    && o == Observation(s.db.identity, Next(m, Load).phase.page, f.db.identity)
  }

  /** A page in a run does to the tailer what the loop does with what it observed. */
  lemma TurnIsStep(s: System, m: System, f: System, o: Observation)
    requires Turn(s, m, f, o)
    ensures var t := CheckIdentity(s.tailer, o.before); var e := Next(f, Finish);
            && e.tailer == Digest(t, o.before, o.page, o.after)
            && e.pages == s.pages + 1
            && (e.phase.Ready? <==> Again(t, o.before, o.page, o.after) && e.pages < MAX_PAGES)
            && (e.phase.Ready? || e.phase.Idle?)
  {
    MeanwhileKeeps(Next(s, Check), m);
    MeanwhileKeeps(Next(m, Load), f);
    hide Meanwhile, Read, Digest, Again;
  }

  /** The pages of one poll in a run, in order, up to the one that ends it. */
  datatype Poll = Poll(starts: seq<System>, loads: seq<System>, finishes: seq<System>)

  ghost predicate PollRuns(p: Poll, seen: seq<Observation>) {
    var n := |p.starts|;
    && 0 < n == |p.loads| == |p.finishes| && n <= |seen|
    && p.starts[0].phase.Ready? && p.starts[0].pages == 0
    && (forall i :: 0 <= i < n ==> Turn(p.starts[i], p.loads[i], p.finishes[i], seen[i]) && Enabled(p.finishes[i], Finish))
    && (forall i :: 0 < i < n ==> Enabled(p.finishes[i - 1], Finish) && Meanwhile(Next(p.finishes[i - 1], Finish), p.starts[i]))
    && Next(p.finishes[n - 1], Finish).phase.Idle?
  }

  lemma PollUnfolds(r: PollResult, seen: seq<Observation>)
    requires |seen| >= MAX_PAGES && r.pages < MAX_PAGES
    ensures var o := seen[r.pages];
            PollFrom(r, seen) ==
              if Again(CheckIdentity(r.tailer, o.before), o.before, o.page, o.after)
              then PollFrom(AfterPage(r, o), seen) else AfterPage(r, o)
  {
    hide Again, CheckIdentity, AfterPage;
  }

  lemma PollStops(r: PollResult, seen: seq<Observation>)
    requires |seen| >= MAX_PAGES && r.pages >= MAX_PAGES
    ensures PollFrom(r, seen) == r
  {
  }

  /** Page `i` of a poll in a run, and what follows it. */
  lemma PageOfPoll(p: Poll, seen: seq<Observation>, i: nat)
    requires PollRuns(p, seen) && i < |p.starts|
    ensures Enabled(p.finishes[i], Finish)
    ensures var s, e, o := p.starts[i], Next(p.finishes[i], Finish), seen[i]; var t := CheckIdentity(s.tailer, o.before);
            && s.pages < MAX_PAGES && e.pages == s.pages + 1
            && e.tailer == Digest(t, o.before, o.page, o.after)
            && (i + 1 < |p.starts| ==> Again(t, o.before, o.page, o.after) && e.pages < MAX_PAGES
                                       && p.starts[i + 1].tailer == e.tailer && p.starts[i + 1].pages == e.pages)
            && (i + 1 == |p.starts| ==> !(Again(t, o.before, o.page, o.after) && e.pages < MAX_PAGES))
  {
    TurnIsStep(p.starts[i], p.loads[i], p.finishes[i], seen[i]);
    if i + 1 < |p.starts| {
      assert Turn(p.starts[i + 1], p.loads[i + 1], p.finishes[i + 1], seen[i + 1]);
      MeanwhileKeeps(Next(p.finishes[i], Finish), p.starts[i + 1]);
    }
    hide Meanwhile, Digest, Again;
  }

  /**
   The polling loop, fed with what a run lets it observe, ends with the tailer and the number
   of pages with which that run ends its poll. Stated from any page on; page 0 is the whole poll.
   */
  lemma {:induction false} PollIsRun(p: Poll, seen: seq<Observation>, i: nat, count: nat)
    requires PollRuns(p, seen) && |seen| >= MAX_PAGES && i < |p.starts| && p.starts[i].pages == i
    ensures Enabled(p.finishes[|p.starts| - 1], Finish)
    ensures var e := PollFrom(PollResult(p.starts[i].tailer, i, count), seen);
            var last := Next(p.finishes[|p.starts| - 1], Finish);
            e.tailer == last.tailer && e.pages == last.pages == |p.starts| <= MAX_PAGES
    decreases |p.starts| - i
  {
    hide PollRuns, PollFrom, Digest, Again, CheckIdentity, Next, Enabled;
    PageOfPoll(p, seen, i);
    var r := PollResult(p.starts[i].tailer, i, count);
    var e := AfterPage(r, seen[i]);
    PollUnfolds(r, seen);
    if i + 1 < |p.starts| {
      PollIsRun(p, seen, i + 1, e.published);
    } else if e.pages >= MAX_PAGES {
      PollStops(e, seen);
    }
  }

  class EventTailer {
    var identity: nat
    var cursor: int
    var generation: nat
    var published: seq<int>

    ghost function View(): (t: Tailer)
      reads this
    {
      Tailer(identity, cursor, generation, published)
    }

    method ResetStream(now: nat)
      modifies this
      ensures View() == Reset(old(View()), now)
    {
      identity, cursor, generation, published := now, 0, generation + 1, [];
    }

    /** Publishes the active rows; every row moves the cursor. */
    method PublishRows(rows: seq<Row>) returns (count: nat)
      modifies this`cursor, this`published
      ensures View() == Absorb(old(View()), rows)
      ensures count == |Announced(rows)|
    {
      count := 0;
      for i := 0 to |rows|
        invariant View() == Absorb(old(View()), rows[..i])
        invariant count == |Announced(rows[..i])|
      {
        assert rows[..i + 1][..i] == rows[..i];
        if rows[i].active {
          published := published + [rows[i].id];
          count := count + 1;
        }
        cursor := rows[i].id;
      }
      assert rows[..|rows|] == rows;
    }

    method PublishPending(seen: seq<Observation>) returns (count: nat, pages: nat)
      requires |seen| >= MAX_PAGES
      modifies this
      ensures PollResult(View(), pages, count) == PollFrom(PollResult(old(View()), 0, 0), seen)
      ensures 0 < pages <= MAX_PAGES
    {
      count, pages := 0, 0;
      while pages < MAX_PAGES
        invariant pages <= MAX_PAGES
        invariant PollFrom(PollResult(View(), pages, count), seen) == PollFrom(PollResult(old(View()), 0, 0), seen)
        decreases MAX_PAGES - pages
      {
        var o := seen[pages];
        if o.before != identity { ResetStream(o.before); }
        pages := pages + 1;
        if o.after != o.before {
          ResetStream(o.after);
          continue;
        }
        if o.page.high < cursor {
          ResetStream(o.after);
          continue;
        }
        if o.page.rows == [] { return; }
        var n := PublishRows(o.page.rows);
        count := count + n;
        if |o.page.rows| < BATCH { return; }
      }
    }
  }
}
