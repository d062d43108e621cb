/**
 The retention transaction: a batch of due deliveries is frozen, later revalidated and
 deleted, and every message that loses its last delivery leaves together with tombstones
 for all of its files.
 */
module Retention {
  import opened Seqs

  type Id = string
  type Component = string
  /** A storage path, as the list of its components below the storage root. */
  type Path = seq<Component>

  datatype Delivery = Delivery(message: Id, status: string, expires: Option<int>)

  datatype Message = Message(
    date: (string, string, string),        // year, month and day of received_at
    hasText: bool,
    hasHtml: bool,
    attachments: set<(string, string)>     // attachment id and safe file name
  )

  datatype Db = Db(messages: map<Id, Message>, deliveries: map<Id, Delivery>, tombstones: set<Path>)

  /** One row of the frozen batch. */
  datatype Row = Row(delivery: Id, message: Id, status: string)

  // ----- path layout -----

  function Dated(category: string, date: (string, string, string), id: Id, suffix: string): (p: Path) {
    [category, date.0, date.1, date.2, id + suffix]
  }

  function RawPath(id: Id, date: (string, string, string)): (p: Path) { Dated("raw", date, id, ".eml") }

  function TextPath(id: Id, date: (string, string, string)): (p: Path) { Dated("text", date, id, ".txt") }

  function HtmlPath(id: Id, date: (string, string, string)): (p: Path) { Dated("html", date, id, ".html") }

  function ManifestPath(id: Id, date: (string, string, string)): (p: Path) { Dated("manifests", date, id, ".json") }

  function AttachmentPath(id: Id, a: (string, string)): (p: Path) { ["attachments", id, a.0 + "-" + a.1] }

  /** Every file a message owns. */
  function PathsOf(id: Id, m: Message): (r: set<Path>) {
    {RawPath(id, m.date), ManifestPath(id, m.date)}
    + (if m.hasText then {TextPath(id, m.date)} else {})
    + (if m.hasHtml then {HtmlPath(id, m.date)} else {})
    + (set a | a in m.attachments :: AttachmentPath(id, a))
  }

  lemma SuffixInjective(a: string, b: string, s: string)
    requires a + s == b + s
    ensures a == b
  {
    assert |a| == |b|;
    assert a == (a + s)[..|a|] && b == (b + s)[..|b|];
  }

  lemma DatedInjective(c: string, d: (string, string, string), a: Id, s: string,
                       c': string, d': (string, string, string), b: Id, s': string)
    requires Dated(c, d, a, s) == Dated(c', d', b, s')
    ensures c == c' && d == d' && a + s == b + s'
  {
    var p, q := Dated(c, d, a, s), Dated(c', d', b, s');
    assert p[0] == q[0] && p[1] == q[1] && p[2] == q[2] && p[3] == q[3] && p[4] == q[4];
  }

  /** A file in a dated folder belongs to the message it is named after. */
  lemma DatedOwner(id: Id, m: Message, p: Path)
    requires p in PathsOf(id, m)
    ensures p[0] == "raw" ==> p == RawPath(id, m.date)
    ensures p[0] == "manifests" ==> p == ManifestPath(id, m.date)
    ensures p[0] == "text" ==> p == TextPath(id, m.date)
    ensures p[0] == "html" ==> p == HtmlPath(id, m.date)
    ensures p[0] !in {"raw", "manifests", "text", "html"} ==> p[1] == id
  {
  }

  /** The layout keeps the files of different messages apart. */
  lemma PathsDisjoint(a: Id, m: Message, b: Id, n: Message, p: Path)
    requires p in PathsOf(a, m) && p in PathsOf(b, n)
    ensures a == b
  {
    DatedOwner(a, m, p);
    DatedOwner(b, n, p);
    hide PathsOf;
    if p[0] == "raw" {
      DatedInjective("raw", m.date, a, ".eml", "raw", n.date, b, ".eml");
      SuffixInjective(a, b, ".eml");
    } else if p[0] == "manifests" {
      DatedInjective("manifests", m.date, a, ".json", "manifests", n.date, b, ".json");
      SuffixInjective(a, b, ".json");
    } else if p[0] == "text" {
      DatedInjective("text", m.date, a, ".txt", "text", n.date, b, ".txt");
      SuffixInjective(a, b, ".txt");
    } else if p[0] == "html" {
      DatedInjective("html", m.date, a, ".html", "html", n.date, b, ".html");
      SuffixInjective(a, b, ".html");
    }
  }

  /** The only file of a message below manifests/ is its receipt. */
  lemma OnlyManifest(id: Id, m: Message, p: Path)
    requires p in PathsOf(id, m) && p[0] == "manifests"
    ensures p == ManifestPath(id, m.date)
  {
    DatedOwner(id, m, p);
  }

  // ----- snapshot -----

  predicate Due(d: Delivery, now: int) {
    d.expires.Some? && d.expires.value <= now
  }

  /** The order of stored text: character by character, a prefix first. */
  predicate TextBefore(a: string, b: string) {
    b != "" && (a == "" || a[0] < b[0] || (a[0] == b[0] && TextBefore(a[1..], b[1..])))
  }

  /** The order of the batch: by expiry, then by id. */
  ghost predicate Before(a: Id, b: Id, db: Db)
    requires a in db.deliveries && b in db.deliveries
    requires db.deliveries[a].expires.Some? && db.deliveries[b].expires.Some?
  {
    var x, y := db.deliveries[a].expires.value, db.deliveries[b].expires.value;
    x < y || (x == y && TextBefore(a, b))
  }

  /** `batch` is the first `limit` due deliveries by expiry and then by id. */
  ghost predicate IsBatch(db: Db, now: int, limit: nat, batch: seq<Row>) {
    && |batch| <= limit
    && (forall i :: 0 <= i < |batch| ==>
          batch[i].delivery in db.deliveries
          && var d := db.deliveries[batch[i].delivery];
             Due(d, now) && batch[i].message == d.message && batch[i].status == d.status)
    && (forall i, j :: 0 <= i < j < |batch| ==> Before(batch[i].delivery, batch[j].delivery, db))
    && (forall k :: k in db.deliveries && Due(db.deliveries[k], now) && (forall i :: 0 <= i < |batch| ==> batch[i].delivery != k) ==>
          |batch| == limit && forall i :: 0 <= i < |batch| ==> Before(batch[i].delivery, k, db))
  }

  /** Text order is decided at the first difference, or by the end of the shorter text. */
  lemma {:induction false} TextOrderIs(a: string, b: string)
    ensures TextBefore(a, b) <==>
            exists i :: 0 <= i <= |a| && i < |b| && a[..i] == b[..i] && (i == |a| || a[i] < b[i])
  {
    if a == "" {
      if b != "" { assert a[..0] == b[..0]; }
    } else if b != "" && a[0] == b[0] {
      TextOrderIs(a[1..], b[1..]);
      if TextBefore(a, b) {
        var i :| 0 <= i <= |a[1..]| && i < |b[1..]| && a[1..][..i] == b[1..][..i] && (i == |a[1..]| || a[1..][i] < b[1..][i]);
        assert a[..i + 1] == [a[0]] + a[1..][..i] && b[..i + 1] == [b[0]] + b[1..][..i];
      }
      if i :| 0 <= i <= |a| && i < |b| && a[..i] == b[..i] && (i == |a| || a[i] < b[i]) {
        assert i > 0;
        assert a[1..][..i - 1] == a[..i][1..] && b[1..][..i - 1] == b[..i][1..];
        assert i - 1 == |a[1..]| || a[1..][i - 1] < b[1..][i - 1];
      }
    } else if b != "" {
      assert a[..0] == b[..0];
      forall i | 0 < i <= |a| && i < |b| ensures a[..i] != b[..i] {
        assert a[..i][0] == a[0] && b[..i][0] == b[0];
      }
    }
  }

  lemma {:induction false} TextTotal(a: string, b: string)
    ensures !(TextBefore(a, b) && TextBefore(b, a))
    ensures a != b ==> TextBefore(a, b) || TextBefore(b, a)
    ensures !TextBefore(a, a)
  {
    if a != "" {
      TextTotal(a[1..], if b == "" then b else b[1..]);
      if b != "" && a[0] == b[0] && a[1..] == b[1..] { assert a == [a[0]] + a[1..] && b == [b[0]] + b[1..]; }
    }
  }

  lemma {:induction false} TextTransitive(a: string, b: string, c: string)
    requires TextBefore(a, b) && TextBefore(b, c)
    ensures TextBefore(a, c)
  {
    if a != "" && a[0] == b[0] == c[0] { TextTransitive(a[1..], b[1..], c[1..]); }
  }

  ghost function BatchDeliveries(batch: seq<Row>): (r: set<Id>) {
    set i | 0 <= i < |batch| :: batch[i].delivery
  }

  /** The messages whose every delivery row is in the batch: the set drained from the parser. */
  ghost function Candidates(db: Db, batch: seq<Row>): (r: set<Id>) {
    set i | 0 <= i < |batch| && (forall k :: k in db.deliveries && db.deliveries[k].message == batch[i].message ==>
                                   k in BatchDeliveries(batch)) :: batch[i].message
  }

  // ----- the transaction -----

  /** Batch rows that still match their delivery in status and are still due. */
  ghost function Confirmed(db: Db, now: int, batch: seq<Row>): (r: set<Id>) {
    set i | 0 <= i < |batch| && batch[i].delivery in db.deliveries
            && db.deliveries[batch[i].delivery].status == batch[i].status
            && Due(db.deliveries[batch[i].delivery], now) :: batch[i].delivery
  }

  ghost function Remaining(db: Db, gone: set<Id>): (r: map<Id, Delivery>) {
    map k | k in db.deliveries && k !in gone :: db.deliveries[k]
  }

  /** Messages named by a confirmed row that no delivery refers to any more. */
  ghost function Orphans(db: Db, now: int, batch: seq<Row>): (r: set<Id>) {
    var gone := Confirmed(db, now, batch);
    set i | 0 <= i < |batch| && batch[i].delivery in gone
            && (forall k :: k in Remaining(db, gone) ==> db.deliveries[k].message != batch[i].message)
          :: batch[i].message
  }

  ghost function Tombstones(db: Db, orphans: set<Id>): (r: set<Path>) {
    set id, p | id in orphans && id in db.messages && p in PathsOf(id, db.messages[id]) :: p
  }

  ghost function Expire(db: Db, now: int, batch: seq<Row>): (r: Db) {
    var orphans := Orphans(db, now, batch);
    Db(map id | id in db.messages && id !in orphans :: db.messages[id],
       Remaining(db, Confirmed(db, now, batch)),
       db.tombstones + Tombstones(db, orphans))
  }

  /** What may happen to the tables while the parser is drained: status and expiry changes only. */
  ghost predicate OnlyStatusOrExpiry(a: Db, b: Db) {
    && a.deliveries.Keys == b.deliveries.Keys
    && forall k :: k in a.deliveries ==> a.deliveries[k].message == b.deliveries[k].message
  }

  /** Every file the message can have on disk is among `paths`. */
  ghost predicate AllFilesIn(id: Id, m: Message, paths: set<Path>) {
    var (year, month, day) := m.date;
    && ["raw", year, month, day, id + ".eml"] in paths
    && ["manifests", year, month, day, id + ".json"] in paths
    && (m.hasText ==> ["text", year, month, day, id + ".txt"] in paths)
    && (m.hasHtml ==> ["html", year, month, day, id + ".html"] in paths)
    && (forall a :: a in m.attachments ==> ["attachments", id, a.0 + "-" + a.1] in paths)
  }

  /**
   What the transaction does to any message: it goes exactly when it had a delivery and
   every delivery it had left in this batch; then all its paths are tombstoned; no path of
   a surviving message is tombstoned; and it was in the set drained from the parser.
   */
  lemma RetentionCommit(snapshot: Db, db: Db, now: int, limit: nat, batch: seq<Row>, id: Id)
    requires IsBatch(snapshot, now, limit, batch) && OnlyStatusOrExpiry(snapshot, db)
    requires id in db.messages
    ensures var r := Expire(db, now, batch);
            && (id !in r.messages <==>
                  (exists k :: k in db.deliveries && db.deliveries[k].message == id)
                  && forall k :: k in db.deliveries && db.deliveries[k].message == id ==> k !in r.deliveries)
            && (id !in r.messages ==> AllFilesIn(id, db.messages[id], r.tombstones))
            && (id in r.messages ==> r.messages[id] == db.messages[id]
                                     && PathsOf(id, db.messages[id]) * r.tombstones == PathsOf(id, db.messages[id]) * db.tombstones)
            && (id !in r.messages ==> id in Candidates(snapshot, batch))
            && (forall p :: p in r.tombstones && p !in db.tombstones ==>
                  exists o :: o in db.messages && o !in r.messages && p in PathsOf(o, db.messages[o]))
  {
    var r := Expire(db, now, batch);
    OrphanIff(snapshot, db, now, limit, batch, id);
    if id in r.messages {
      forall p | p in PathsOf(id, db.messages[id]) && p in Tombstones(db, Orphans(db, now, batch)) ensures false {
        var o :| o in Orphans(db, now, batch) && o in db.messages && p in PathsOf(o, db.messages[o]);
        PathsDisjoint(id, db.messages[id], o, db.messages[o], p);
      }
    } else {
      forall p | p in PathsOf(id, db.messages[id]) ensures p in r.tombstones {
        assert p in Tombstones(db, Orphans(db, now, batch));
      }
      FilesOf(id, db.messages[id], r.tombstones);
    }
    hide AllFilesIn, Orphans, PathsOf, Candidates, IsBatch, Confirmed;
  }

  lemma FilesOf(id: Id, m: Message, paths: set<Path>)
    requires PathsOf(id, m) <= paths
    ensures AllFilesIn(id, m, paths)
  {
    assert RawPath(id, m.date) in paths && ManifestPath(id, m.date) in paths;
    assert m.hasText ==> TextPath(id, m.date) in PathsOf(id, m);
    assert m.hasHtml ==> HtmlPath(id, m.date) in PathsOf(id, m);
    assert forall a :: a in m.attachments ==> AttachmentPath(id, a) in PathsOf(id, m);
  }

  lemma OrphanIff(snapshot: Db, db: Db, now: int, limit: nat, batch: seq<Row>, id: Id)
    requires IsBatch(snapshot, now, limit, batch) && OnlyStatusOrExpiry(snapshot, db)
    ensures var gone := Confirmed(db, now, batch);
            id in Orphans(db, now, batch) <==>
              (exists k :: k in db.deliveries && db.deliveries[k].message == id)
              && forall k :: k in db.deliveries && db.deliveries[k].message == id ==> k in gone
    ensures id in Orphans(db, now, batch) ==> id in Candidates(snapshot, batch)
  {
    var gone := Confirmed(db, now, batch);
    if id in Orphans(db, now, batch) {
      var i :| 0 <= i < |batch| && batch[i].delivery in gone && batch[i].message == id
               && forall k :: k in Remaining(db, gone) ==> db.deliveries[k].message != batch[i].message;
      assert db.deliveries[batch[i].delivery].message == id;
      forall k | k in db.deliveries && db.deliveries[k].message == id ensures k in gone {
        assert k !in Remaining(db, gone);
      }
      assert id in Candidates(snapshot, batch);
    }
    if (exists k :: k in db.deliveries && db.deliveries[k].message == id)
       && (forall k :: k in db.deliveries && db.deliveries[k].message == id ==> k in gone) {
      var k :| k in db.deliveries && db.deliveries[k].message == id;
      var i :| 0 <= i < |batch| && batch[i].delivery == k;
      assert batch[i].message == id;
      assert id in Orphans(db, now, batch);
    }
  }

  /** Exactly the rows of the batch that are still due and unchanged leave; every other delivery stays as it is. */
  lemma DeliveriesLeaving(db: Db, now: int, batch: seq<Row>, k: Id)
    requires k in db.deliveries
    ensures var d := db.deliveries[k];
            k !in Expire(db, now, batch).deliveries <==>
              && d.expires.Some? && d.expires.value <= now
              && exists i :: 0 <= i < |batch| && batch[i].delivery == k && batch[i].status == d.status
    ensures k in Expire(db, now, batch).deliveries ==> Expire(db, now, batch).deliveries[k] == db.deliveries[k]
  {
  }

  // ----- snapshot and commit together -----

  /** The deliveries expired by `now` that come before `k`: by expiry time, and by id among equals. */
  ghost function Ahead(db: Db, now: int, k: Id): (r: set<Id>)
    requires k in db.deliveries && db.deliveries[k].expires.Some?
  {
    var t := db.deliveries[k].expires.value;
    set j | j in db.deliveries && db.deliveries[j].expires.Some?
            && var u := db.deliveries[j].expires.value;
               u <= now && (u < t || (u == t && TextBefore(j, k)))
  }

  /** Expired, and among the first `limit` that are. */
  ghost predicate Selected(db: Db, now: int, limit: nat, k: Id) {
    && k in db.deliveries && db.deliveries[k].expires.Some? && db.deliveries[k].expires.value <= now
    && |Ahead(db, now, k)| < limit
  }

  lemma BeforeAsymmetric(a: Id, b: Id, db: Db)
    requires a in db.deliveries && b in db.deliveries
    requires db.deliveries[a].expires.Some? && db.deliveries[b].expires.Some?
    ensures !(Before(a, b, db) && Before(b, a, db)) && !Before(a, a, db)
    ensures a != b ==> Before(a, b, db) || Before(b, a, db)
  {
    TextTotal(a, b);
  }

  lemma BatchSize(db: Db, now: int, limit: nat, batch: seq<Row>)
    requires IsBatch(db, now, limit, batch)
    ensures |BatchDeliveries(batch)| == |batch|
  {
    forall i, j | 0 <= i < j < |batch| ensures batch[i].delivery != batch[j].delivery {
      BeforeAsymmetric(batch[i].delivery, batch[j].delivery, db);
    }
    DistinctRows(batch);
  }

  lemma {:induction false} DistinctRows(batch: seq<Row>)
    requires forall i, j :: 0 <= i < j < |batch| ==> batch[i].delivery != batch[j].delivery
    ensures |BatchDeliveries(batch)| == |batch|
  {
    if batch == [] {
      assert BatchDeliveries(batch) == {};
    } else {
      var n := |batch| - 1;
      DistinctRows(batch[..n]);
      assert BatchDeliveries(batch) == BatchDeliveries(batch[..n]) + {batch[n].delivery} by {
        forall i | 0 <= i < n ensures batch[i].delivery in BatchDeliveries(batch[..n]) { assert batch[..n][i] == batch[i]; }
      }
      assert batch[n].delivery !in BatchDeliveries(batch[..n]);
    }
  }

  lemma AheadOfRow(db: Db, now: int, limit: nat, batch: seq<Row>, k: Id)
    requires IsBatch(db, now, limit, batch) && k in BatchDeliveries(batch)
    ensures Ahead(db, now, k) + {k} <= BatchDeliveries(batch) && k !in Ahead(db, now, k)
  {
    forall j | j in Ahead(db, now, k) ensures j in BatchDeliveries(batch) {
      if j !in BatchDeliveries(batch) { BeforeAsymmetric(j, k, db); }
    }
    BeforeAsymmetric(k, k, db);
  }

  lemma RowsAhead(db: Db, now: int, limit: nat, batch: seq<Row>, k: Id)
    requires IsBatch(db, now, limit, batch) && k in db.deliveries && Due(db.deliveries[k], now) && k !in BatchDeliveries(batch)
    ensures BatchDeliveries(batch) <= Ahead(db, now, k) && |batch| == limit
  {
  }

  /** A batch holds exactly the first `limit` expired deliveries. */
  lemma BatchIs(db: Db, now: int, limit: nat, batch: seq<Row>, k: Id)
    requires IsBatch(db, now, limit, batch)
    ensures k in BatchDeliveries(batch) <==> Selected(db, now, limit, k)
  {
    BatchSize(db, now, limit, batch);
    if k in BatchDeliveries(batch) {
      AheadOfRow(db, now, limit, batch, k);
      SubsetSize(Ahead(db, now, k) + {k}, BatchDeliveries(batch));
      hide Before, Ahead;
    } else if k in db.deliveries && Due(db.deliveries[k], now) {
      RowsAhead(db, now, limit, batch, k);
      SubsetSize(BatchDeliveries(batch), Ahead(db, now, k));
      hide Before, Ahead;
    }
  }

  /**
   Retention from snapshot to commit: a delivery leaves exactly when it had expired by `now`
   in both, was among the first `limit` of the snapshot to expire, and kept its status.
   */
  lemma LeavesIff(snapshot: Db, db: Db, now: int, limit: nat, batch: seq<Row>, k: Id)
    requires IsBatch(snapshot, now, limit, batch) && k in db.deliveries
    ensures var d, r := db.deliveries[k], Expire(db, now, batch);
            && (k !in r.deliveries <==>
                  && d.expires.Some? && d.expires.value <= now
                  && Selected(snapshot, now, limit, k) && snapshot.deliveries[k].status == d.status)
            && (k in r.deliveries ==> r.deliveries[k] == d)
  {
    DeliveriesLeaving(db, now, batch, k);
    BatchIs(snapshot, now, limit, batch, k);
    hide Expire, Ahead;
  }

  /** The parser is drained of exactly the messages whose every delivery was selected. */
  lemma CandidatesIs(snapshot: Db, now: int, limit: nat, batch: seq<Row>, id: Id)
    requires IsBatch(snapshot, now, limit, batch)
    ensures id in Candidates(snapshot, batch) <==>
              && (exists k :: k in snapshot.deliveries && snapshot.deliveries[k].message == id)
              && (forall k :: k in snapshot.deliveries && snapshot.deliveries[k].message == id ==>
                    Selected(snapshot, now, limit, k))
  {
    forall k ensures k in BatchDeliveries(batch) <==> Selected(snapshot, now, limit, k) {
      BatchIs(snapshot, now, limit, batch, k);
    }
    hide Selected, Before;
    if k :| k in snapshot.deliveries && snapshot.deliveries[k].message == id && k in BatchDeliveries(batch) {
      var i :| 0 <= i < |batch| && batch[i].delivery == k;
    }
  }

  // ----- there always is a batch -----

  ghost function AllDue(db: Db, now: int): (r: set<Id>) {
    set k | k in db.deliveries && Due(db.deliveries[k], now)
  }

  lemma BeforeTransitive(a: Id, b: Id, c: Id, db: Db)
    requires a in db.deliveries && b in db.deliveries && c in db.deliveries
    requires db.deliveries[a].expires.Some? && db.deliveries[b].expires.Some? && db.deliveries[c].expires.Some?
    requires Before(a, b, db) && Before(b, c, db)
    ensures Before(a, c, db)
  {
    if TextBefore(a, b) && TextBefore(b, c) { TextTransitive(a, b, c); }
  }

  lemma {:induction false} FirstOf(db: Db, now: int, s: set<Id>) returns (first: Id)
    requires s != {} && s <= AllDue(db, now)
    ensures first in s && forall k :: k in s && k != first ==> Before(first, k, db)
  {
    var x :| x in s;
    if s == {x} { return x; }
    var y := FirstOf(db, now, s - {x});
    BeforeAsymmetric(x, y, db);
    if Before(x, y, db) {
      first := x;
      forall k | k in s && k != x ensures Before(x, k, db) {
        if k != y { BeforeTransitive(x, y, k, db); }
      }
    } else {
      first := y;
    }
  }

  /** `batch` lists the first of `s`, in order. */
  ghost predicate Lists(db: Db, s: set<Id>, limit: nat, batch: seq<Row>)
    requires forall k :: k in s ==> k in db.deliveries && db.deliveries[k].expires.Some?
  {
    && |batch| <= limit
    && (forall i :: 0 <= i < |batch| ==>
          && batch[i].delivery in s
          && batch[i].message == db.deliveries[batch[i].delivery].message
          && batch[i].status == db.deliveries[batch[i].delivery].status)
    && (forall i, j :: 0 <= i < j < |batch| ==> Before(batch[i].delivery, batch[j].delivery, db))
    && (forall k :: k in s && (forall i :: 0 <= i < |batch| ==> batch[i].delivery != k) ==>
          |batch| == limit && forall i :: 0 <= i < |batch| ==> Before(batch[i].delivery, k, db))
  }

  lemma {:induction false} ListExists(db: Db, now: int, s: set<Id>, limit: nat) returns (batch: seq<Row>)
    requires s <= AllDue(db, now)
    ensures Lists(db, s, limit, batch)
    decreases limit
  {
    if s == {} || limit == 0 { return []; }
    var k := FirstOf(db, now, s);
    var rest := ListExists(db, now, s - {k}, limit - 1);
    var row := Row(k, db.deliveries[k].message, db.deliveries[k].status);
    batch := [row] + rest;
    forall i | 0 < i < |batch| ensures batch[i] == rest[i - 1] && Before(k, batch[i].delivery, db) {}
    forall j | j in s && (forall i :: 0 <= i < |batch| ==> batch[i].delivery != j)
      ensures |batch| == limit && forall i :: 0 <= i < |batch| ==> Before(batch[i].delivery, j, db)
    {
      assert batch[0].delivery == k;
      assert j in s - {k} && forall i :: 0 <= i < |rest| ==> rest[i].delivery == batch[i + 1].delivery;
    }
  }

  /** Every snapshot has a batch, so nothing above is empty. */
  lemma BatchExists(db: Db, now: int, limit: nat) returns (batch: seq<Row>)
    ensures IsBatch(db, now, limit, batch)
  {
    batch := ListExists(db, now, AllDue(db, now), limit);
    forall k | k in db.deliveries && Due(db.deliveries[k], now) ensures k in AllDue(db, now) {}
    forall i | 0 <= i < |batch| ensures Due(db.deliveries[batch[i].delivery], now) {
      assert batch[i].delivery in AllDue(db, now);
    }
  }
}
