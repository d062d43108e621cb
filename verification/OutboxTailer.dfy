/**
 The tailer that turns committed outbox rows into live events: pages of rows behind a
 cursor, read while the database may be appended to, replaced or rolled back.
 */
module OutboxTailer {
  const BATCH: nat := 512
  const MAX_PAGES: nat := 8

  /** A row as its page shows it; `active` says that its delivery was still there to announce. */
  datatype Row = Row(id: int, active: bool)

  datatype Page = Page(rows: seq<Row>, high: int)

  /** `published` is what the current generation of the live ring has been given. */
  datatype Tailer = Tailer(identity: nat, cursor: int, generation: nat, published: seq<int>)

  // ----- one page -----

  function Reset(t: Tailer, identity: nat): (r: Tailer) {
    Tailer(identity, 0, t.generation + 1, [])
  }

  function CheckIdentity(t: Tailer, before: nat): (r: Tailer) {
    if before != t.identity then Reset(t, before) else t
  }

  /** Announces the active rows and moves the cursor over all of them. */
  function Absorb(t: Tailer, rows: seq<Row>): (r: Tailer)
    decreases |rows|
  {
    if rows == [] then t
    else
      var s := Absorb(t, rows[..|rows| - 1]);
      var row := rows[|rows| - 1];
      s.(cursor := row.id, published := if row.active then s.published + [row.id] else s.published)
  }

  /** Whether the page must be thrown away because the database is not the one it was. */
  predicate Foreign(t: Tailer, before: nat, page: Page, after: nat) {
    after != before || page.high < t.cursor
  }

  function Digest(t: Tailer, before: nat, page: Page, after: nat): (r: Tailer) {
    if Foreign(t, before, page, after) then Reset(t, after) else Absorb(t, page.rows)
  }

  /** Whether the poll looks for another page. */
  predicate Again(t: Tailer, before: nat, page: Page, after: nat) {
    Foreign(t, before, page, after) || |page.rows| >= BATCH
  }

  // ----- the database and the interleaving -----

  /** `lineage` is history: it counts how often the outbox was exchanged for another one. */
  datatype Database = Database(identity: nat, ids: seq<int>, active: set<int>, high: int, lineage: nat)

  datatype Phase = Idle | Ready | Checked(before: nat) | Loaded(before: nat, page: Page)

  /**
   `seen`, `first` and `lineage` are history: the rows read since the last reset, the
   place in the outbox where they begin, and the outbox they belong to.
   */
  datatype System = System(
    db: Database, tailer: Tailer, phase: Phase, pages: nat,
    seen: seq<Row>, first: nat, lineage: nat
  )

  datatype Op =
    | Append(id: int, active: bool)      // a delivery is committed
    | Deactivate(id: int)                // retention takes a delivery away
    | Replace(next: Database)            // another file under the same path
    | Restore(next: Database)            // other contents in the same file
    | ClearAll                           // all mail is cleared while the tailer is stopped
    | StartPoll
    | Check
    | Load
    | Finish
    | Abort                              // the poll is cancelled, or loading its page fails

  predicate DatabaseOk(d: Database) {
    && (forall i, j :: 0 <= i < j < |d.ids| ==> d.ids[i] < d.ids[j])
    && (forall i :: 0 <= i < |d.ids| ==> 0 < d.ids[i] <= d.high)
    && 0 <= d.high
  }

  predicate Enabled(s: System, op: Op) {
    match op
    case Append(id, _) => id > s.db.high
    case Deactivate(_) => true
    case Replace(next) => DatabaseOk(next) && next.lineage == s.db.lineage + 1 && next.identity != s.db.identity
    case Restore(next) => DatabaseOk(next) && next.lineage == s.db.lineage + 1 && next.identity == s.db.identity
    case ClearAll => s.phase.Idle?
    case StartPoll => s.phase.Idle?
    case Abort => !s.phase.Idle?
    case Check => s.phase.Ready? && s.pages < MAX_PAGES
    case Load => s.phase.Checked?
    case Finish => s.phase.Loaded?
  }

  /** The ids behind the cursor. */
  ghost function Behind(ids: seq<int>, cursor: int): (r: seq<int>) {
    if ids == [] || ids[0] > cursor then ids else Behind(ids[1..], cursor)
  }

  function Rows(ids: seq<int>, active: set<int>): (r: seq<Row>) {
    if ids == [] then [] else Rows(ids[..|ids| - 1], active) + [Row(ids[|ids| - 1], ids[|ids| - 1] in active)]
  }

  /** How many of `n` rows one page takes. */
  function PageSize(n: nat): (r: nat) {
    if n <= BATCH then n else BATCH
  }

  ghost function Read(d: Database, cursor: int): (p: Page) {
    var ids := Behind(d.ids, cursor);
    Page(Rows(ids[..PageSize(|ids|)], d.active), d.high)
  }

  ghost function Next(s: System, op: Op): (t: System)
    requires Enabled(s, op)
  {
    match op
    case Append(id, active) =>
      s.(db := s.db.(ids := s.db.ids + [id], high := id, active := if active then s.db.active + {id} else s.db.active))
    case Deactivate(id) => s.(db := s.db.(active := s.db.active - {id}))
    case Replace(next) => s.(db := next)
    case Restore(next) => s.(db := next)
    case ClearAll =>                                           // the sequence keeps its high-water mark
      s.(db := s.db.(ids := [], active := {}, lineage := s.db.lineage + 1),
         tailer := Reset(s.tailer, s.tailer.identity), seen := [], first := 0,
         lineage := if s.tailer.identity == s.db.identity then s.db.lineage + 1 else s.lineage)
    case StartPoll => s.(phase := Ready, pages := 0)
    case Abort => s.(phase := Idle)
    case Check =>
      var t := CheckIdentity(s.tailer, s.db.identity);
      var u := s.(tailer := t, phase := Checked(s.db.identity));
      if t.generation == s.tailer.generation then u else Restarted(u)
    case Load => s.(phase := Loaded(s.phase.before, Read(s.db, s.tailer.cursor)), pages := s.pages + 1)
    case Finish =>
      var before, page, after := s.phase.before, s.phase.page, s.db.identity;
      var u := s.(tailer := Digest(s.tailer, before, page, after),
                  phase := if Again(s.tailer, before, page, after) && s.pages < MAX_PAGES then Ready else Idle);
      if Foreign(s.tailer, before, page, after) then Restarted(u) else u.(seen := s.seen + page.rows)
  }

  function Restarted(s: System): (t: System) {
    s.(seen := [], first := 0, lineage := s.db.lineage)
  }

  /** The tailer starts behind everything the outbox holds. */
  function Init(d: Database): (s: System) {
    System(d, Tailer(d.identity, if d.ids == [] then 0 else d.ids[|d.ids| - 1], 0, []), Idle, 0, [], |d.ids|, d.lineage)
  }

  // ----- the invariant -----

  ghost function Ids(rows: seq<Row>): (r: seq<int>) {
    if rows == [] then [] else Ids(rows[..|rows| - 1]) + [rows[|rows| - 1].id]
  }

  /** The ids of the rows that were active when their page was read. */
  ghost function Announced(rows: seq<Row>): (r: seq<int>) {
    if rows == [] then []
    else Announced(rows[..|rows| - 1]) + if rows[|rows| - 1].active then [rows[|rows| - 1].id] else []
  }

  /** The outbox splits at `k` into what the cursor has passed and what it has not. */
  ghost predicate SplitAt(ids: seq<int>, cursor: int, k: nat) {
    && k <= |ids|
    && (forall i :: 0 <= i < k ==> ids[i] <= cursor)
    && (forall i :: k <= i < |ids| ==> ids[i] > cursor)
  }

  /** The rows read since the last reset are the outbox from `first` up to the cursor. */
  ghost predicate Aligned(ids: seq<int>, cursor: int, seen: seq<Row>, first: nat) {
    && first + |seen| <= |ids|
    && Ids(seen) == ids[first..first + |seen|]
    && SplitAt(ids, cursor, first + |seen|)
  }

  /** A loaded page continues where the rows read so far end. */
  ghost predicate PageFits(ids: seq<int>, k: nat, page: Page) {
    && k + |page.rows| <= |ids|
    && Ids(page.rows) == ids[k..k + |page.rows|]
    && |page.rows| <= BATCH
  }

  ghost predicate Inv(s: System) {
    && DatabaseOk(s.db)
    && s.lineage <= s.db.lineage
    && s.pages <= MAX_PAGES
    && (s.phase.Ready? || s.phase.Checked? ==> s.pages < MAX_PAGES)
    && s.tailer.published == Announced(s.seen)
    && (s.lineage == s.db.lineage ==>
          && Aligned(s.db.ids, s.tailer.cursor, s.seen, s.first)
          && s.tailer.identity == s.db.identity
          && s.tailer.cursor <= s.db.high
          && (s.phase.Loaded? ==> PageFits(s.db.ids, s.first + |s.seen|, s.phase.page)
                                  && s.phase.before == s.db.identity
                                  && s.tailer.cursor <= s.phase.page.high)
          && (s.phase.Checked? ==> s.phase.before == s.db.identity))
  }

  // ----- pages -----

  lemma {:induction false} BehindIsSuffix(ids: seq<int>, cursor: int, k: nat)
    requires SplitAt(ids, cursor, k)
    ensures Behind(ids, cursor) == ids[k..]
  {
    if k > 0 {
      assert ids[0] <= cursor;
      assert forall i :: 0 <= i < |ids| - 1 ==> ids[1..][i] == ids[i + 1];
      BehindIsSuffix(ids[1..], cursor, k - 1);
      assert ids[1..][k - 1..] == ids[k..];
    }
  }

  lemma {:induction false} RowsIds(ids: seq<int>, active: set<int>)
    ensures Ids(Rows(ids, active)) == ids && |Rows(ids, active)| == |ids|
  {
    if ids != [] {
      var front := ids[..|ids| - 1];
      RowsIds(front, active);
      var rows := Rows(front, active);
      var row := Row(ids[|ids| - 1], ids[|ids| - 1] in active);
      assert (rows + [row])[..|rows|] == rows;
    }
  }

  lemma {:induction false} IdsConcat(a: seq<Row>, b: seq<Row>)
    ensures Ids(a + b) == Ids(a) + Ids(b)
  {
    if b == [] {
      assert a + b == a;
    } else {
      assert (a + b)[..|a + b| - 1] == a + b[..|b| - 1];
      IdsConcat(a, b[..|b| - 1]);
    }
  }

  lemma {:induction false} AnnouncedConcat(a: seq<Row>, b: seq<Row>)
    ensures Announced(a + b) == Announced(a) + Announced(b)
  {
    if b == [] {
      assert a + b == a;
    } else {
      assert (a + b)[..|a + b| - 1] == a + b[..|b| - 1];
      AnnouncedConcat(a, b[..|b| - 1]);
    }
  }

  lemma {:induction false} IdsLength(rows: seq<Row>)
    ensures |Ids(rows)| == |rows|
    ensures rows != [] ==> Ids(rows)[|rows| - 1] == rows[|rows| - 1].id
  {
    if rows != [] { IdsLength(rows[..|rows| - 1]); }
  }

  /** Absorbing rows announces the active ones in order and always moves the cursor to the last. */
  lemma {:induction false} AbsorbIs(t: Tailer, rows: seq<Row>)
    ensures Absorb(t, rows) == t.(published := t.published + Announced(rows),
                                  cursor := if rows == [] then t.cursor else rows[|rows| - 1].id)
  {
    if rows == [] {
      assert t.published + [] == t.published;
    } else {
      AbsorbIs(t, rows[..|rows| - 1]);
    }
  }

  /** A page holds the next ids behind the cursor, as many as fit. */
  lemma ReadIs(d: Database, cursor: int, k: nat)
    requires SplitAt(d.ids, cursor, k)
    ensures var n := PageSize(|d.ids| - k); var rows := Read(d, cursor).rows;
            |rows| == n && Ids(rows) == d.ids[k..k + n]
  {
    BehindIsSuffix(d.ids, cursor, k);
    hide SplitAt, Behind, Rows, Ids, PageSize;
    var n := PageSize(|d.ids| - k);
    RowsIds(d.ids[k..k + n], d.active);
    assert d.ids[k..][..n] == d.ids[k..k + n];
  }

  /** A page read now fits, and is short only if it reaches the end of the outbox. */
  lemma ReadFits(d: Database, cursor: int, seen: seq<Row>, first: nat)
    requires Aligned(d.ids, cursor, seen, first)
    ensures var p := Read(d, cursor); var k := first + |seen|;
            && PageFits(d.ids, k, p)
            && (|p.rows| < BATCH ==> k + |p.rows| == |d.ids|)
            && (k < |d.ids| ==> p.rows != [])
  {
    ReadIs(d, cursor, first + |seen|);
    hide SplitAt, Read, Ids;
  }

  /** The ids of rows read and a page that fits are a stretch of the outbox, and the page ends where it does. */
  lemma PageExtends(ids: seq<int>, seen: seq<Row>, first: nat, rows: seq<Row>)
    requires var k := first + |seen|;
             k + |rows| <= |ids| && Ids(seen) == ids[first..k] && Ids(rows) == ids[k..k + |rows|]
    ensures Ids(seen + rows) == ids[first..first + |seen| + |rows|]
    ensures rows != [] ==> rows[|rows| - 1].id == ids[first + |seen| + |rows| - 1]
  {
    var k, n := first + |seen|, |rows|;
    IdsConcat(seen, rows);
    IdsLength(rows);
    hide Ids;
    assert ids[first..k] + ids[k..k + n] == ids[first..k + n];
    if n > 0 { assert ids[k..k + n][n - 1] == ids[k + n - 1]; }
  }

  lemma AbsorbAligned(d: Database, cursor: int, seen: seq<Row>, first: nat, page: Page)
    requires DatabaseOk(d) && Aligned(d.ids, cursor, seen, first) && PageFits(d.ids, first + |seen|, page)
    ensures var after := if page.rows == [] then cursor else page.rows[|page.rows| - 1].id;
            && Aligned(d.ids, after, seen + page.rows, first)
            && cursor <= after && (after <= d.high || after == cursor)
            && (page.rows != [] ==> cursor < after)
  {
    PageExtends(d.ids, seen, first, page.rows);
    hide Ids;
    if page.rows == [] { assert seen + page.rows == seen; }
  }

  // ----- every step keeps it -----

  lemma AppendAligned(d: Database, cursor: int, seen: seq<Row>, first: nat, id: int)
    requires Aligned(d.ids, cursor, seen, first) && cursor < id
    ensures Aligned(d.ids + [id], cursor, seen, first)
  {
    var k := first + |seen|;
    assert (d.ids + [id])[first..k] == d.ids[first..k];
  }

  lemma AppendFits(ids: seq<int>, k: nat, page: Page, id: int)
    requires PageFits(ids, k, page)
    ensures PageFits(ids + [id], k, page)
  {
    var n := |page.rows|;
    assert (ids + [id])[k..k + n] == ids[k..k + n];
  }

  lemma AppendOk(d: Database, id: int)
    requires DatabaseOk(d) && id > d.high
    ensures forall active :: DatabaseOk(d.(ids := d.ids + [id], high := id, active := active))
  {
  }

  lemma AppendInv(s: System, id: int, active: bool)
    requires Inv(s) && id > s.db.high
    ensures Inv(Next(s, Append(id, active)))
  {
    hide DatabaseOk, Aligned, PageFits, Announced;
    AppendOk(s.db, id);
    if s.lineage == s.db.lineage {
      AppendAligned(s.db, s.tailer.cursor, s.seen, s.first, id);
      if s.phase.Loaded? { AppendFits(s.db.ids, s.first + |s.seen|, s.phase.page, id); }
    }
  }

  /** A reset is aligned with whatever the database holds. */
  lemma ResetAligned(d: Database)
    requires DatabaseOk(d)
    ensures Aligned(d.ids, 0, [], 0) && Announced([]) == []
  {
    var none: seq<Row> := [];
    assert Ids(none) == d.ids[0..0];
  }

  lemma FinishInv(s: System)
    requires Inv(s) && s.phase.Loaded?
    ensures Inv(Next(s, Finish))
  {
    var page := s.phase.page;
    AbsorbIs(s.tailer, page.rows);
    AnnouncedConcat(s.seen, page.rows);
    ResetAligned(s.db);
    if s.lineage == s.db.lineage {
      AbsorbAligned(s.db, s.tailer.cursor, s.seen, s.first, page);
    }
    hide Aligned, Announced, Absorb, PageFits;
  }

  lemma LoadInv(s: System)
    requires Inv(s) && s.phase.Checked?
    ensures Inv(Next(s, Load))
  {
    hide Aligned, Announced, PageFits, DatabaseOk;
    if s.lineage == s.db.lineage {
      ReadFits(s.db, s.tailer.cursor, s.seen, s.first);
    }
    assert Read(s.db, s.tailer.cursor).high == s.db.high;
    hide Read;
  }

  lemma CheckInv(s: System)
    requires Inv(s) && s.phase.Ready? && s.pages < MAX_PAGES
    ensures Inv(Next(s, Check))
  {
    ResetAligned(s.db);
    hide Aligned, Announced;
  }

  lemma StepInv(s: System, op: Op)
    requires Inv(s) && Enabled(s, op)
    ensures Inv(Next(s, op))
  {
    match op
    case Append(id, active) => AppendInv(s, id, active);
    case Check => CheckInv(s);
    case Load => LoadInv(s);
    case Finish => FinishInv(s);
    case _ => hide Aligned, Announced, PageFits;
  }

  lemma InitInv(d: Database)
    requires DatabaseOk(d)
    ensures Inv(Init(d))
  {
    var none: seq<Row> := [];
    assert Ids(none) == d.ids[|d.ids|..|d.ids|];
  }

  // ----- runs -----

  ghost predicate Reaches(s: System, ops: seq<Op>, t: System)
    decreases |ops|
  {
    if ops == [] then s == t else Enabled(s, ops[0]) && Reaches(Next(s, ops[0]), ops[1..], t)
  }

  lemma {:induction false} RunInv(s: System, ops: seq<Op>, t: System)
    requires Inv(s) && Reaches(s, ops, t)
    ensures Inv(t)
    decreases |ops|
  {
    if ops != [] {
      StepInv(s, ops[0]);
      hide Inv, Next;
      RunInv(Next(s, ops[0]), ops[1..], t);
    }
  }

  /**
   Exactly once, in id order: while the outbox the tailer follows is only appended to, the
   rows read since the last reset are the outbox from `first` up to the cursor without a
   hole or a repeat, no unread id is at or below the cursor, and what was published is
   exactly those rows that were active when their page was read. No poll loads more than
   `MAX_PAGES` pages.
   */
  lemma ExactlyOnce(d: Database, ops: seq<Op>, t: System)
    requires DatabaseOk(d) && Reaches(Init(d), ops, t)
    ensures t.pages <= 8
    ensures t.tailer.published == Announced(t.seen)
    ensures t.lineage == t.db.lineage ==>
              var k := t.first + |t.seen|;
              && k <= |t.db.ids|
              && Ids(t.seen) == t.db.ids[t.first..k]
              && (forall i :: 0 <= i < |t.db.ids| ==> (t.db.ids[i] <= t.tailer.cursor <==> i < k))
  {
    InitInv(d);
    RunInv(Init(d), ops, t);
    hide Reaches, Ids, Announced;
  }

  predicate Tame(op: Op) { !op.Replace? && !op.Restore? && !op.ClearAll? }

  /** A step that leaves the database in place never resets, never moves the cursor back and never rereads. */
  lemma TameStep(s: System, op: Op)
    requires Inv(s) && Enabled(s, op) && Tame(op) && s.lineage == s.db.lineage
    ensures var t := Next(s, op);
            && t.lineage == t.db.lineage && t.tailer.generation == s.tailer.generation && t.first == s.first
            && s.tailer.cursor <= t.tailer.cursor && s.seen <= t.seen && s.db.ids <= t.db.ids
  {
    if op.Finish? {
      AbsorbIs(s.tailer, s.phase.page.rows);
      AbsorbAligned(s.db, s.tailer.cursor, s.seen, s.first, s.phase.page);
    }
    hide Aligned, Announced, Absorb, PageFits;
  }

  /** With an append-only outbox and a fixed database: one generation, and everything appended is read from `first` on. */
  lemma {:induction false} AppendOnlyRun(s: System, ops: seq<Op>, t: System)
    requires Inv(s) && s.lineage == s.db.lineage && Reaches(s, ops, t) && forall i :: 0 <= i < |ops| ==> Tame(ops[i])
    ensures t.lineage == t.db.lineage && t.tailer.generation == s.tailer.generation && t.first == s.first
    ensures s.tailer.cursor <= t.tailer.cursor && s.seen <= t.seen && s.db.ids <= t.db.ids
    decreases |ops|
  {
    if ops != [] {
      StepInv(s, ops[0]);
      TameStep(s, ops[0]);
      hide Inv, Next;
      AppendOnlyRun(Next(s, ops[0]), ops[1..], t);
    }
  }

  /**
   No stall: a page moves the cursor past all its rows, announced or not, it is empty only
   when everything committed before it was read, and a poll that stops before its last
   page has read everything committed when it loaded its last page.
   */
  lemma PageProgress(s: System)
    requires Inv(s) && s.phase.Checked? && s.lineage == s.db.lineage
    ensures var l := Next(s, Load); var f := Next(l, Finish);
            && |f.seen| == |s.seen| + |l.phase.page.rows|
            && (s.first + |s.seen| < |s.db.ids| ==> |f.seen| > |s.seen|)
            && (f.phase.Idle? && f.pages < MAX_PAGES ==> f.first + |f.seen| == |f.db.ids|)
  {
    ReadFits(s.db, s.tailer.cursor, s.seen, s.first);
    hide Aligned, Announced, Absorb, PageFits, Read;
  }

  lemma {:induction false} RowsAre(ids: seq<int>, active: set<int>)
    ensures |Rows(ids, active)| == |ids| && forall i :: 0 <= i < |ids| ==> Rows(ids, active)[i] == Row(ids[i], ids[i] in active)
  {
    if ids != [] { RowsAre(ids[..|ids| - 1], active); }
  }

  /** The ids of the rows whose delivery is there, in order. */
  ghost function ActiveOf(ids: seq<int>, active: set<int>): (r: seq<int>) {
    if ids == [] then []
    else ActiveOf(ids[..|ids| - 1], active) + if ids[|ids| - 1] in active then [ids[|ids| - 1]] else []
  }

  lemma {:induction false} AnnouncedActive(ids: seq<int>, active: set<int>)
    ensures Announced(Rows(ids, active)) == ActiveOf(ids, active)
  {
    if ids != [] {
      AnnouncedActive(ids[..|ids| - 1], active);
      var front, row := Rows(ids[..|ids| - 1], active), Row(ids[|ids| - 1], ids[|ids| - 1] in active);
      assert (front + [row])[..|front|] == front;
    }
  }

  /**
   One undisturbed page: the next 512 ids behind the cursor, or as many as there are, with the
   mark as it is; the ones with a delivery are published in order, the cursor moves to the last
   of all, and the poll goes on exactly when the page was full and it was not the eighth.
   */
  lemma PageExact(s: System)
    requires Inv(s) && s.phase.Checked? && s.lineage == s.db.lineage
    ensures var k := s.first + |s.seen|; var l := Next(s, Load); var f := Next(l, Finish);
            && k <= |s.db.ids|
            && var n := if |s.db.ids| - k <= 512 then |s.db.ids| - k else 512; var ids := s.db.ids[k..k + n];
               && l.phase.page.high == s.db.high && |l.phase.page.rows| == n && l.pages == s.pages + 1
               && f.tailer.published == s.tailer.published + ActiveOf(ids, s.db.active)
               && f.tailer.cursor == (if n == 0 then s.tailer.cursor else ids[n - 1])
               && f.tailer.generation == s.tailer.generation
               && (f.phase.Ready? <==> n == 512 && f.pages < 8) && (f.phase.Ready? || f.phase.Idle?)
  {
    var k := s.first + |s.seen|;
    hide Announced, Absorb, PageFits, Read, Rows, ActiveOf, Behind, DatabaseOk, Ids;
    ReadExact(s.db, s.tailer.cursor, k);
    hide Aligned, SplitAt;
    var n := if |s.db.ids| - k <= 512 then |s.db.ids| - k else 512;
    var rows := Rows(s.db.ids[k..k + n], s.db.active);
    RowsAre(s.db.ids[k..k + n], s.db.active);
    AnnouncedActive(s.db.ids[k..k + n], s.db.active);
    AbsorbIs(s.tailer, rows);
    FinishExact(Next(s, Load), rows);
  }

  lemma ReadExact(d: Database, cursor: int, k: nat)
    requires SplitAt(d.ids, cursor, k)
    ensures var n := if |d.ids| - k <= 512 then |d.ids| - k else 512;
            Read(d, cursor) == Page(Rows(d.ids[k..k + n], d.active), d.high)
  {
    BehindIsSuffix(d.ids, cursor, k);
    hide SplitAt, Behind, Rows;
    var n := if |d.ids| - k <= 512 then |d.ids| - k else 512;
    assert d.ids[k..][..n] == d.ids[k..k + n];
  }

  lemma FinishExact(l: System, rows: seq<Row>)
    requires l.phase.Loaded? && l.phase.before == l.db.identity && l.phase.page.rows == rows && l.tailer.cursor <= l.phase.page.high
    ensures var f := Next(l, Finish);
            && f.tailer == Absorb(l.tailer, rows) && f.pages == l.pages
            && (f.phase.Ready? <==> |rows| >= 512 && l.pages < 8) && (f.phase.Ready? || f.phase.Idle?)
  {
    hide Absorb;
  }

  /** What happens around the tailer does not touch it; an abandoned poll leaves it where it is. */
  lemma OutsideIs(s: System, op: Op)
    requires Enabled(s, op) && (op.Append? || op.Deactivate? || op.Replace? || op.Restore? || op.Abort? || op.StartPoll?)
    ensures var r := Next(s, op); var d := r.db;
            && r.tailer == s.tailer && r.seen == s.seen && r.first == s.first && r.lineage == s.lineage
            && (op.Append? ==>
                  && d.ids == s.db.ids + [op.id] && d.high == op.id && d.identity == s.db.identity
                  && d.active == (if op.active then s.db.active + {op.id} else s.db.active))
            && (op.Deactivate? ==> d.ids == s.db.ids && d.high == s.db.high && forall id :: id in d.active <==> id in s.db.active && id != op.id)
            && (op.Replace? || op.Restore? ==> d == op.next && (op.Replace? <==> d.identity != s.db.identity))
            && (op.Abort? ==> r.phase.Idle? && d == s.db)
            && (op.StartPoll? ==> r.phase.Ready? && r.pages == 0 && d == s.db)
  {
  }

  /**
   Clearing all mail keeps the high-water mark, and the tailer begins anew: the next row that is
   committed is announced by the next poll, alone.
   */
  lemma ClearedThenSeen(s: System, id: int)
    requires Inv(s) && s.phase.Idle? && s.tailer.identity == s.db.identity && id > s.db.high
    ensures var c := Next(s, ClearAll);
            && c.db.ids == [] && c.db.high == s.db.high && c.tailer.cursor == 0 && c.tailer.published == []
            && Enabled(c, Append(id, true))
            && var p := Next(Next(Next(c, Append(id, true)), StartPoll), Check);
               && Enabled(p, Load)
               && var f := Next(Next(p, Load), Finish);
                  && f.tailer.published == [id] && f.tailer.cursor == id && f.phase.Idle?
                  && f.tailer.generation == s.tailer.generation + 1
  {
    hide Inv, ActiveOf, Read, Absorb;
    var c := Next(s, ClearAll);
    var a := Next(c, Append(id, true));
    var p := Next(Next(a, StartPoll), Check);
    ClearedInv(s, id);
    ClearedIs(s, id);
    hide Next;
    PageExact(p);
    OneActive(id, p.db.active);
  }

  lemma ClearedIs(s: System, id: int)
    requires s.phase.Idle? && s.tailer.identity == s.db.identity && id > s.db.high
    ensures var c := Next(s, ClearAll); var p := Next(Next(Next(c, Append(id, true)), StartPoll), Check);
            && c.db.ids == [] && c.db.high == s.db.high && c.tailer.cursor == 0 && c.tailer.published == []
            && c.tailer.generation == s.tailer.generation + 1
            && p.tailer == c.tailer && p.db.ids == [id] && id in p.db.active && p.phase.Checked?
            && p.seen == [] && p.first == 0 && p.lineage == p.db.lineage && p.pages == 0
  {
    hide Read, Absorb;
    var c := Next(s, ClearAll);
    assert c.db.ids + [id] == [id];
  }

  lemma OneActive(id: int, active: set<int>)
    requires id in active
    ensures ActiveOf([id], active) == [id] && [id][0..1] == [id]
  {
    assert [id][..0] == [];
  }

  lemma ClearedInv(s: System, id: int)
    requires Inv(s) && s.phase.Idle? && s.tailer.identity == s.db.identity && id > s.db.high
    ensures var c := Next(s, ClearAll);
            && Enabled(c, Append(id, true))
            && Inv(Next(Next(Next(c, Append(id, true)), StartPoll), Check))
  {
    hide Inv;
    var c := Next(s, ClearAll);
    StepInv(s, ClearAll);
    StepInv(c, Append(id, true));
    StepInv(Next(c, Append(id, true)), StartPoll);
    StepInv(Next(Next(c, Append(id, true)), StartPoll), Check);
  }

  /** A replaced file is followed from zero under a fresh generation as soon as it is looked at. */
  lemma ReplacedRestarts(s: System)
    requires Inv(s) && s.phase.Ready? && s.pages < MAX_PAGES && s.tailer.identity != s.db.identity
    ensures var t := Next(s, Check);
            && t.tailer.cursor == 0 && t.tailer.published == [] && t.tailer.generation == s.tailer.generation + 1
            && t.lineage == t.db.lineage && t.seen == [] && t.first == 0
  {
    ResetAligned(s.db);
    hide Aligned;
  }

  /**
   A page is thrown away for a restart exactly when the file moved around its read or its
   high-water mark is below the cursor; a tailer that follows an exchanged outbox is
   re-aligned by that page exactly then.
   */
  lemma ForeignPageRestarts(s: System)
    requires Inv(s) && s.phase.Loaded?
    ensures s.phase.before != s.db.identity || s.phase.page.high < s.tailer.cursor <==>
            Next(s, Finish).tailer == Tailer(s.db.identity, 0, s.tailer.generation + 1, [])
    ensures s.phase.before != s.db.identity || s.phase.page.high < s.tailer.cursor ==>
            Next(s, Finish).lineage == s.db.lineage && Next(s, Finish).seen == []
    ensures s.lineage != s.db.lineage ==>
              (Next(s, Finish).lineage == s.db.lineage <==>
               s.phase.before != s.db.identity || s.phase.page.high < s.tailer.cursor)
  {
    AbsorbIs(s.tailer, s.phase.page.rows);
    hide Aligned, Announced, Absorb;
  }

  // ----- a restore that goes unnoticed -----

  /** Rows that a page read behind the cursor can hold, whatever the database. */
  ghost predicate Beyond(rows: seq<Row>, cursor: int) {
    && (forall i :: 0 <= i < |rows| ==> rows[i].id > cursor)
    && (forall i, j :: 0 <= i < j < |rows| ==> rows[i].id < rows[j].id)
  }

  ghost predicate PageBeyond(s: System) {
    s.phase.Loaded? ==> Beyond(s.phase.page.rows, s.tailer.cursor)
  }

  ghost predicate IdsBeyond(ids: seq<int>, cursor: int) {
    && (forall i :: 0 <= i < |ids| ==> ids[i] > cursor)
    && (forall i, j :: 0 <= i < j < |ids| ==> ids[i] < ids[j])
  }

  lemma {:induction false} BehindBeyond(ids: seq<int>, cursor: int)
    requires forall i, j :: 0 <= i < j < |ids| ==> ids[i] < ids[j]
    ensures IdsBeyond(Behind(ids, cursor), cursor)
  {
    if ids != [] && ids[0] <= cursor { BehindBeyond(ids[1..], cursor); }
  }

  lemma {:induction false} RowsBeyond(ids: seq<int>, active: set<int>, cursor: int)
    requires IdsBeyond(ids, cursor)
    ensures Beyond(Rows(ids, active), cursor) && |Rows(ids, active)| == |ids|
    ensures forall i :: 0 <= i < |ids| ==> Rows(ids, active)[i].id == ids[i]
  {
    if ids != [] { RowsBeyond(ids[..|ids| - 1], active, cursor); }
  }

  lemma ReadBeyond(d: Database, cursor: int)
    requires DatabaseOk(d)
    ensures Beyond(Read(d, cursor).rows, cursor)
  {
    BehindBeyond(d.ids, cursor);
    var ids := Behind(d.ids, cursor);
    RowsBeyond(ids[..PageSize(|ids|)], d.active, cursor);
  }

  lemma {:induction false} AnnouncedAre(rows: seq<Row>, id: int)
    requires id in Announced(rows)
    ensures exists i :: 0 <= i < |rows| && rows[i].id == id
  {
    if id !in Announced(rows[..|rows| - 1]) {
      assert rows[|rows| - 1].id == id;
    } else {
      AnnouncedAre(rows[..|rows| - 1], id);
    }
  }

  /** The tailer began anew, or it has only moved forward: nothing at or below the cursor was published since. */
  ghost predicate OnlyForward(a: Tailer, b: Tailer) {
    || a.generation < b.generation
    || (a.generation == b.generation && a.cursor <= b.cursor
        && forall id :: id in b.published ==> id in a.published || id > a.cursor)
  }

  lemma FinishForward(s: System)
    requires PageBeyond(s) && s.phase.Loaded?
    ensures OnlyForward(s.tailer, Next(s, Finish).tailer)
  {
    var rows := s.phase.page.rows;
    AbsorbIs(s.tailer, rows);
    forall id | id in Announced(rows) ensures id > s.tailer.cursor { AnnouncedAre(rows, id); }
    hide Absorb, Announced;
  }

  lemma ForwardStep(s: System, op: Op)
    requires DatabaseOk(s.db) && PageBeyond(s) && Enabled(s, op)
    ensures OnlyForward(s.tailer, Next(s, op).tailer) && PageBeyond(Next(s, op)) && DatabaseOk(Next(s, op).db)
  {
    if op.Finish? {
      FinishForward(s);
      hide Absorb;
    } else if op.Load? {
      ReadBeyond(s.db, s.tailer.cursor);
      hide Read;
    }
  }

  /** In all runs, restores included: while a generation lasts, no row at or below the cursor is published any more. */
  lemma {:induction false} NeverGoesBack(s: System, ops: seq<Op>, t: System)
    requires DatabaseOk(s.db) && PageBeyond(s) && Reaches(s, ops, t)
    ensures OnlyForward(s.tailer, t.tailer)
    decreases |ops|
  {
    if ops != [] {
      ForwardStep(s, ops[0]);
      hide Next, Enabled, PageBeyond, DatabaseOk;
      NeverGoesBack(Next(s, ops[0]), ops[1..], t);
    }
  }

  /** Deliveries are committed and taken away, and nothing else happens. */
  predicate Commits(op: Op) { op.Append? || op.Deactivate? }

  ghost predicate CommitRun(s: System, t: System) {
    exists ops :: Reaches(s, ops, t) && forall i :: 0 <= i < |ops| ==> Commits(ops[i])
  }

  /** Such runs change only the database, which keeps its identity, and its high-water mark only rises. */
  ghost predicate OnlyGrown(s: System, t: System) {
    && t == s.(db := t.db) && DatabaseOk(t.db)
    && t.db.identity == s.db.identity && t.db.lineage == s.db.lineage && s.db.high <= t.db.high
  }

  lemma {:induction false} CommitsGrow(s: System, ops: seq<Op>, t: System)
    requires DatabaseOk(s.db) && Reaches(s, ops, t) && forall i :: 0 <= i < |ops| ==> Commits(ops[i])
    ensures OnlyGrown(s, t)
    decreases |ops|
  {
    if ops != [] {
      var op, m := ops[0], Next(s, ops[0]);
      assert Commits(op);
      if op.Append? { AppendOk(s.db, op.id); }
      assert OnlyGrown(s, m);
      hide Next, DatabaseOk;
      CommitsGrow(m, ops[1..], t);
    }
  }

  lemma CommitRunGrows(s: System, t: System)
    requires DatabaseOk(s.db) && CommitRun(s, t)
    ensures OnlyGrown(s, t)
  {
    var ops :| Reaches(s, ops, t) && forall i :: 0 <= i < |ops| ==> Commits(ops[i]);
    CommitsGrow(s, ops, t);
  }

  /** The tailer follows this very file and is not ahead of it; then only another exchange can make it begin anew. */
  ghost predicate Steady(s: System) {
    && DatabaseOk(s.db) && s.tailer.identity == s.db.identity && s.tailer.cursor <= s.db.high
    && (s.phase.Checked? ==> s.phase.before == s.db.identity)
    && (s.phase.Loaded? ==>
          && s.phase.before == s.db.identity && s.tailer.cursor <= s.phase.page.high <= s.db.high
          && forall i :: 0 <= i < |s.phase.page.rows| ==> s.phase.page.rows[i].id <= s.phase.page.high)
  }

  lemma {:induction false} BehindAtMost(ids: seq<int>, cursor: int, high: int)
    requires forall i :: 0 <= i < |ids| ==> ids[i] <= high
    ensures forall i :: 0 <= i < |Behind(ids, cursor)| ==> Behind(ids, cursor)[i] <= high
  {
    if ids != [] && ids[0] <= cursor { BehindAtMost(ids[1..], cursor, high); }
  }

  lemma {:induction false} RowsAtMost(ids: seq<int>, active: set<int>, high: int)
    requires forall i :: 0 <= i < |ids| ==> ids[i] <= high
    ensures forall i :: 0 <= i < |Rows(ids, active)| ==> Rows(ids, active)[i].id <= high
  {
    if ids != [] { RowsAtMost(ids[..|ids| - 1], active, high); }
  }

  lemma ReadAtMost(d: Database, cursor: int)
    requires DatabaseOk(d)
    ensures var p := Read(d, cursor);
            p.high == d.high && forall i :: 0 <= i < |p.rows| ==> p.rows[i].id <= d.high
  {
    BehindAtMost(d.ids, cursor, d.high);
    var ids := Behind(d.ids, cursor);
    RowsAtMost(ids[..PageSize(|ids|)], d.active, d.high);
  }

  lemma SteadyStep(s: System, op: Op)
    requires Steady(s) && Enabled(s, op) && Tame(op)
    ensures Steady(Next(s, op)) && Next(s, op).tailer.generation == s.tailer.generation
    ensures Next(s, op).lineage == s.lineage && Next(s, op).db.lineage == s.db.lineage
  {
    if op.Finish? {
      AbsorbIs(s.tailer, s.phase.page.rows);
    } else if op.Load? {
      ReadAtMost(s.db, s.tailer.cursor);
    } else if op.Append? {
      AppendOk(s.db, op.id);
    }
    hide Absorb, Read, Announced;
  }

  lemma {:induction false} SteadyRun(s: System, ops: seq<Op>, t: System)
    requires Steady(s) && Reaches(s, ops, t) && forall i :: 0 <= i < |ops| ==> Tame(ops[i])
    ensures t.tailer.generation == s.tailer.generation && t.lineage == s.lineage && t.db.lineage == s.db.lineage
    decreases |ops|
  {
    if ops != [] {
      SteadyStep(s, ops[0]);
      hide Next, Enabled, Steady;
      SteadyRun(Next(s, ops[0]), ops[1..], t);
    }
  }

  /** The page read in `l` is finished in `f`, with commits in between. */
  ghost predicate PageTurn(l: System, f: System) {
    Enabled(l, Load) && CommitRun(Next(l, Load), f) && Enabled(f, Finish)
  }

  /** An exchanged outbox is noticed by a page exactly when the mark, as the page is read, is below the cursor. */
  lemma PageNoticesIff(l: System, f: System)
    requires DatabaseOk(l.db) && PageTurn(l, f) && l.phase.before == l.db.identity == l.tailer.identity
    requires l.lineage != l.db.lineage
    ensures var p := Next(f, Finish);
            && (p.lineage == p.db.lineage <==> l.db.high < l.tailer.cursor)
            && p.tailer.generation == l.tailer.generation + (if l.db.high < l.tailer.cursor then 1 else 0)
            && OnlyForward(l.tailer, p.tailer) && PageBeyond(p) && Steady(p) && p.db.lineage == l.db.lineage
  {
    ReadBeyond(l.db, l.tailer.cursor);
    ReadAtMost(l.db, l.tailer.cursor);
    var e := Next(l, Load);
    CommitRunGrows(e, f);
    FinishForward(f);
    AbsorbIs(f.tailer, f.phase.page.rows);
    hide CommitRun, Read, Announced, Absorb, OnlyForward, DatabaseOk, Beyond;
    assert DatabaseOk(f.db);
  }

  /**
   From `s` to `t` nothing is exchanged and no page read on the way is finished; `early` says
   that a page loaded in `s` was read before. Polls may begin, be given up and begin again.
   */
  ghost predicate Unread(s: System, ops: seq<Op>, t: System, early: bool)
    decreases |ops|
  {
    if ops == [] then s == t
    else
      var op := ops[0];
      && Enabled(s, op) && Tame(op) && (op.Finish? ==> early)
      && Unread(Next(s, op), ops[1..], t, early && !op.Load?)
  }

  /** The file was restored under the tailer, which does not know: the pages it still holds look right. */
  ghost predicate Unaware(s: System, early: bool) {
    && DatabaseOk(s.db) && s.tailer.identity == s.db.identity && s.lineage != s.db.lineage
    && (s.phase.Checked? || s.phase.Loaded? ==> s.phase.before == s.db.identity)
    && (s.phase.Loaded? && early ==> s.tailer.cursor <= s.phase.page.high)
  }

  lemma UnawareStep(s: System, op: Op, early: bool)
    requires Unaware(s, early) && Enabled(s, op) && Tame(op) && (op.Finish? ==> early)
    ensures Unaware(Next(s, op), early && !op.Load?) && Next(s, op).tailer.generation == s.tailer.generation
    ensures !op.Finish? ==> Next(s, op).tailer == s.tailer
  {
    if op.Append? { AppendOk(s.db, op.id); }
    if op.Finish? { AbsorbIs(s.tailer, s.phase.page.rows); }
    hide DatabaseOk, Absorb, Announced, Read;
  }

  lemma {:induction false} StaysUnaware(s: System, ops: seq<Op>, t: System, early: bool)
    requires Unaware(s, early) && Unread(s, ops, t, early)
    ensures exists still: bool :: Unaware(t, still)
    ensures t.tailer.generation == s.tailer.generation && (!early ==> t.tailer == s.tailer)
    decreases |ops|
  {
    if ops != [] {
      UnawareStep(s, ops[0], early);
      hide Unaware, Next, Enabled;
      StaysUnaware(Next(s, ops[0]), ops[1..], t, early && !ops[0].Load?);
    }
  }

  /**
   A restore in place, at any point of a poll, is noticed by the first page read and finished
   after it exactly when the high-water mark, as it is when that page is read, is below the
   cursor. Then the tailer begins anew; otherwise no run without a further exchange ends its
   generation, and no row at or below the cursor is announced any more.
   */
  lemma RestoreNoticedIff(s: System, d: Database, before: seq<Op>, l: System, f: System, ops: seq<Op>, t: System, id: int)
    requires Inv(s) && s.lineage == s.db.lineage && Enabled(s, Restore(d))
    requires Unread(Next(s, Restore(d)), before, l, s.phase.Loaded?) && PageTurn(l, f)
    requires Reaches(Next(f, Finish), ops, t) && forall i :: 0 <= i < |ops| ==> Tame(ops[i])
    ensures t.lineage == t.db.lineage <==> l.db.high < l.tailer.cursor
    ensures t.tailer.generation == s.tailer.generation <==> l.tailer.cursor <= l.db.high
    ensures l.tailer.cursor <= l.db.high && id <= l.tailer.cursor && id in t.tailer.published ==> id in l.tailer.published
    ensures !s.phase.Loaded? ==> l.tailer == s.tailer
  {
    RestoredUnaware(s, d);
    StaysUnaware(Next(s, Restore(d)), before, l, s.phase.Loaded?);
    PageNoticesIff(l, f);
    var p := Next(f, Finish);
    hide Inv, PageTurn, Unread, Next, Enabled;
    SteadyRun(p, ops, t);
    assert DatabaseOk(p.db);
    NeverGoesBack(p, ops, t);
  }

  lemma RestoredUnaware(s: System, d: Database)
    requires Inv(s) && s.lineage == s.db.lineage && Enabled(s, Restore(d))
    ensures Unaware(Next(s, Restore(d)), s.phase.Loaded?)
  {
    hide DatabaseOk, Aligned, Announced, PageFits;
  }

  // ----- two runs -----

  lemma ReachesCons(s: System, op: Op, ops: seq<Op>, t: System)
    requires Enabled(s, op) && Reaches(Next(s, op), ops, t)
    ensures Reaches(s, [op] + ops, t)
  {
    assert ([op] + ops)[1..] == ops;
    hide Enabled, Next;
  }

  /** What one page makes of the tailer in a database that stays as it is. */
  lemma PagePolled(x: System, rows: seq<Row>) returns (ops: seq<Op>, t: System)
    requires x.phase.Idle? && x.tailer.identity == x.db.identity && x.tailer.cursor <= x.db.high
    requires Read(x.db, x.tailer.cursor) == Page(rows, x.db.high) && |rows| < BATCH
    ensures Reaches(x, ops, t)
    ensures t.db == x.db && t.phase.Idle? && t.tailer == Absorb(x.tailer, rows) && t.lineage == x.lineage
  {
    hide Read, Absorb, Reaches;
    var b := Next(x, StartPoll);
    var c := Next(b, Check);
    var e := Next(c, Load);
    t := Next(e, Finish);
    NoOps(t);
    ReachesCons(e, Finish, [], t);
    ReachesCons(c, Load, [Finish] + [], t);
    ReachesCons(b, Check, [Load] + ([Finish] + []), t);
    ReachesCons(x, StartPoll, [Check] + ([Load] + ([Finish] + [])), t);
    ops := [StartPoll] + ([Check] + ([Load] + ([Finish] + [])));
  }

  lemma NoOps(t: System)
    ensures Reaches(t, [], t)
  {
  }

  /** An outbox with the ids from 1 to `n`, one or two, all active. */
  function Outbox(n: int, lineage: nat): (d: Database) {
    if n <= 1 then Database(7, [1], {1}, 1, lineage) else Database(7, [1, 2], {1, 2}, 2, lineage)
  }

  lemma OutboxIs(n: int, lineage: nat)
    requires n == 1 || n == 2
    ensures var d := Outbox(n, lineage); var s := Init(d);
            && DatabaseOk(d) && d.identity == 7 && d.high == n && d.lineage == lineage
            && s == System(d, Tailer(7, n, 0, []), Idle, 0, [], n, lineage)
  {
  }

  lemma PagesOfTwo(lineage: nat)
    ensures Read(Outbox(2, lineage), 1) == Page([Row(2, true)], 2)
    ensures Read(Outbox(2, lineage), 2) == Page([], 2)
  {
    BehindIsSuffix([1, 2], 1, 1);
    BehindIsSuffix([1, 2], 2, 2);
    assert [1, 2][1..] == [2] && [1, 2][2..] == [];
    assert [2][..0] == [] && Rows([2], {1, 2}) == [Row(2, true)];
  }

  lemma AbsorbOne(t: Tailer)
    requires t.published == []
    ensures Absorb(t, [Row(2, true)]) == t.(cursor := 2, published := [2])
  {
    assert [Row(2, true)][..0] == [];
    assert [] + [2] == [2];
  }

  /** Row 1 of a restored outbox that is never announced: the cursor was already past it. */
  lemma UnnoticedRestore() returns (ops: seq<Op>, t: System)
    ensures DatabaseOk(Outbox(1, 0)) && Reaches(Init(Outbox(1, 0)), ops, t)
    ensures t.db == Outbox(2, 1) && t.phase.Idle? && t.tailer == Tailer(7, 2, 0, [2]) && t.lineage != t.db.lineage
  {
    OutboxIs(1, 0);
    OutboxIs(2, 1);
    PagesOfTwo(1);
    var s, d := Init(Outbox(1, 0)), Outbox(2, 1);
    AbsorbOne(s.tailer);
    hide Outbox, Init, Read, DatabaseOk, Absorb, Reaches;
    var x := Next(s, Restore(d));
    ops, t := PagePolled(x, [Row(2, true)]);
    ReachesCons(s, Restore(d), ops, t);
    ops := [Restore(d)] + ops;
  }

  lemma SecondCommit(s: System)
    requires s.db == Outbox(1, 1)
    ensures Enabled(s, Append(2, true)) && Next(s, Append(2, true)) == s.(db := Outbox(2, 1))
  {
    assert [1] + [2] == [1, 2];
    assert {1} + {2} == {1, 2};
  }

  /**
   A restore below the cursor that goes unnoticed all the same: a commit before the next page
   lifts the high-water mark back to the cursor, and the committed row 2 is never announced.
   */
  lemma OvertakenRestore() returns (ops: seq<Op>, t: System)
    ensures DatabaseOk(Outbox(2, 0)) && Reaches(Init(Outbox(2, 0)), ops, t)
    ensures Init(Outbox(2, 0)).tailer.cursor == 2 && Outbox(1, 1).high == 1
    ensures |ops| >= 2 && ops[..2] == [Restore(Outbox(1, 1)), Append(2, true)]
    ensures t.db == Outbox(2, 1) && t.phase.Idle? && t.tailer == Tailer(7, 2, 0, []) && t.lineage != t.db.lineage
  {
    OutboxIs(2, 0);
    OutboxIs(1, 1);
    OutboxIs(2, 1);
    PagesOfTwo(1);
    var s, d := Init(Outbox(2, 0)), Outbox(1, 1);
    AbsorbNone(s.tailer);
    var x := Next(s, Restore(d));
    SecondCommit(x);
    hide Outbox, Init, Read, DatabaseOk, Absorb, Reaches;
    var y := Next(x, Append(2, true));
    ops, t := PagePolled(y, []);
    ReachesCons(x, Append(2, true), ops, t);
    ReachesCons(s, Restore(d), [Append(2, true)] + ops, t);
    ops := [Restore(d)] + ([Append(2, true)] + ops);
  }

  lemma AbsorbNone(t: Tailer)
    ensures Absorb(t, []) == t
  {
  }
}
