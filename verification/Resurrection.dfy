/**
 Retention, file garbage collection, clear-all and manifest recovery share one mail-store
 lock and one FIFO writer.  A coroutine may be cancelled anywhere, which drops the lock but
 not the transaction it already queued, and the process may crash anywhere, which drops
 both.  In every interleaving a message that was removed stays removed, unless a clear-all
 is cut off between its transaction and the move of the receipts.

 Only manifest files are tracked: recovery reads nothing else to decide what exists.
 */
module Resurrection {
  import opened Retention

  type Date = (string, string, string)

  /** A receipt on disk: everything replay needs to insert the message. */
  datatype Manifest = Manifest(id: Id, message: Message)

  function PathOf(m: Manifest): (p: Path) { ManifestPath(m.id, m.message.date) }

  /** A transaction in the writer's queue. */
  datatype Tx =
    | AcceptTx(m: Manifest, rows: map<Id, Delivery>)
    | ReplayTx(m: Manifest, rows: map<Id, Delivery>)
    | RetentionTx(now: int, batch: seq<Row>)
    | ForgetTx(paths: set<Path>)           // drop tombstones of unlinked files
    | ClearTx                              // empty every table, tombstones included

  datatype Holder =
    | Free
    | Retaining(loaded: set<Path>, unlinked: set<Path>)
    | Recovering(found: set<Manifest>)
    | Clearing(sent: bool)                 // its transaction is queued or done, the receipts not yet moved

  datatype System = System(
    db: Db,
    files: map<Path, Manifest>,
    queue: seq<Tx>,
    holder: Holder,
    adrift: set<Path>,                     // paths that threads of cancelled passes may still unlink
    accepting: set<Id>,                    // accepts in progress
    unsent: set<Id>,                       // those that have not queued their transaction yet
    born: map<Id, Date>,                   // history: every id ever accepted
    retired: set<Id>                       // history: every id retention or clear-all removed
  )

  datatype Action =
    | Receive(m: Manifest)                                   // an accept writes its receipt
    | Send(m: Manifest, rows: map<Id, Delivery>)             // and queues its transaction
    | Leave(id: Id)                                          // it returns, fails or is cancelled
    | LockRetention | QueueRetention(now: int, batch: seq<Row>)
    | LoadGc | Unlink(p: Path) | QueueForget | Unlock        // Unlock also stands for cancellation
    | UnlinkAdrift(p: Path)                                  // by the thread of a cancelled pass, without the lock
    | LockClear | QueueClear | MoveAll                       // a clear-all pass, with no accept in progress
    | LockRecovery | Scan(found: set<Manifest>) | QueueReplay(m: Manifest, rows: map<Id, Delivery>)
    | Execute                                                // the writer runs its next transaction
    | Edit(deliveries: map<Id, Delivery>)                    // any other change to delivery rows
    | Crash

  /** Replay refuses a receipt whose raw or manifest path is tombstoned. */
  predicate Tombstoned(db: Db, m: Manifest) {
    RawPath(m.id, m.message.date) in db.tombstones || PathOf(m) in db.tombstones
  }

  function Insert(db: Db, m: Manifest, rows: map<Id, Delivery>): (r: Db) {
    Db(if m.id in db.messages then db.messages else db.messages[m.id := m.message],
       rows + db.deliveries, db.tombstones)
  }

  ghost function Apply(s: System, tx: Tx): (r: System) {
    match tx
    case AcceptTx(m, rows) => s.(db := Insert(s.db, m, rows))
    case ReplayTx(m, rows) => if Tombstoned(s.db, m) then s else s.(db := Insert(s.db, m, rows))
    case RetentionTx(now, batch) =>
      var d := Expire(s.db, now, batch);
      s.(db := d, retired := s.retired + (s.db.messages.Keys - d.messages.Keys))
    case ForgetTx(paths) => s.(db := s.db.(tombstones := s.db.tombstones - paths))
    case ClearTx => s.(db := Db(map[], map[], {}), retired := s.retired + s.db.messages.Keys)
  }

  /** Clear-all has emptied the tables and not yet moved the receipts. */
  predicate Unmoved(s: System) {
    s.holder == Clearing(true) && ClearTx !in s.queue
  }

  ghost predicate Enabled(s: System, a: Action) {
    match a
    case Receive(m) => m.id !in s.born && !s.holder.Clearing?
    case Send(m, _) => m.id in s.unsent && m.id in s.born && m.message.date == s.born[m.id]
    case Leave(id) => id in s.accepting
    case LockRetention => s.holder.Free?
    case QueueRetention(_, _) => s.holder.Retaining?
    case LoadGc => s.holder.Retaining?
    case Unlink(p) => s.holder.Retaining? && p in s.holder.loaded
    case QueueForget => s.holder.Retaining?
    case Unlock => true
    case UnlinkAdrift(p) => p in s.adrift
    case LockClear => s.holder.Free? && s.accepting == {}
    case QueueClear => s.holder == Clearing(false)
    case MoveAll => Unmoved(s)
    case LockRecovery => s.holder.Free?
    case Scan(found) =>
      s.holder.Recovering?
      && forall m :: m in found ==>
           PathOf(m) in s.files && s.files[PathOf(m)] == m && m.id !in s.accepting
    case QueueReplay(m, _) => s.holder.Recovering? && m in s.holder.found
    case Execute => s.queue != []
    case Edit(_) => true
    case Crash => true
  }

  /** What a thread of the pass that holds the lock may be removing. */
  function InHand(s: System): (r: set<Path>) {
    if s.holder.Retaining? then s.holder.loaded else if Unmoved(s) then s.files.Keys else {}
  }

  ghost function Next(s: System, a: Action): (r: System)
    requires Enabled(s, a)
  {
    match a
    case Receive(m) =>
      s.(files := s.files[PathOf(m) := m], born := s.born[m.id := m.message.date],
         accepting := s.accepting + {m.id}, unsent := s.unsent + {m.id})
    case Send(m, rows) => s.(queue := s.queue + [AcceptTx(m, rows)], unsent := s.unsent - {m.id})
    case Leave(id) => s.(accepting := s.accepting - {id}, unsent := s.unsent - {id})
    case LockRetention => s.(holder := Retaining({}, {}))
    case QueueRetention(now, batch) => s.(queue := s.queue + [RetentionTx(now, batch)])
    case LoadGc => s.(holder := Retaining(s.db.tombstones, {}))
    case Unlink(p) =>
      s.(files := s.files - {p}, holder := s.holder.(unlinked := s.holder.unlinked + {p}))
    case QueueForget => s.(queue := s.queue + [ForgetTx(s.holder.unlinked)])
    case Unlock => s.(holder := Free, adrift := s.adrift + InHand(s))
    case UnlinkAdrift(p) => s.(files := s.files - {p})
    case LockClear => s.(holder := Clearing(false))
    case QueueClear => s.(queue := s.queue + [ClearTx], holder := Clearing(true))
    case MoveAll => s.(files := map[], holder := Clearing(false))
    case LockRecovery => s.(holder := Recovering({}))
    case Scan(found) => s.(holder := Recovering(found))
    case QueueReplay(m, rows) => s.(queue := s.queue + [ReplayTx(m, rows)])
    case Execute => Apply(s.(queue := s.queue[1..]), s.queue[0])
    case Edit(deliveries) => s.(db := s.db.(deliveries := deliveries))
    case Crash => s.(queue := [], holder := Free, adrift := {}, accepting := {}, unsent := {})
  }

  function Initial(): (s: System) {
    System(Db(map[], map[], {}), map[], [], Free, {}, {}, {}, map[], {})
  }

  // ----- invariant -----

  ghost predicate Genuine(s: System, m: Manifest) {
    m.id in s.born && s.born[m.id] == m.message.date
  }

  /** If the message was removed, its tombstone is in place. */
  ghost predicate Guarded(s: System, m: Manifest) {
    m.id in s.retired ==> PathOf(m) in s.db.tombstones
  }

  ghost predicate BornPaths(s: System, paths: set<Path>) {
    forall id, d :: ManifestPath(id, d) in paths ==> id in s.born
  }

  /** Files already unlinked, and never to be written again. */
  ghost predicate Gone(s: System, paths: set<Path>) {
    BornPaths(s, paths) && paths !! s.files.Keys
  }

  ghost predicate TablesOk(s: System) {
    && (forall id :: id in s.retired ==> id !in s.db.messages && id in s.born)
    && (forall id :: id in s.db.messages ==> id in s.born && s.db.messages[id].date == s.born[id])
    && TombstonesOk(s)
  }

  /** Only removed messages have tombstones. */
  ghost predicate TombstonesOk(s: System) {
    forall m :: Tombstoned(s.db, m) ==> m.id in s.retired
  }

  /** A message that is removed, stored, or stored by one of the first `i` transactions. */
  ghost predicate Settled(s: System, i: int, id: Id) {
    || id in s.retired
    || id in s.db.messages
    || exists j :: 0 <= j < i && j < |s.queue| && (s.queue[j].AcceptTx? || s.queue[j].ReplayTx?) && s.queue[j].m.id == id
  }

  /** A receipt that is on disk, in the hands of recovery, or to be replayed after transaction `i`. */
  ghost predicate Replayable(s: System, i: int, m: Manifest) {
    || m in s.files.Values
    || (s.holder.Recovering? && m in s.holder.found)
    || exists k :: 0 <= k < |s.queue| && i < k && s.queue[k].ReplayTx? && s.queue[k].m == m
  }

  /** Emptying the tables at transaction `i` lets nothing return that was there before. */
  ghost predicate Harmless(s: System, i: int) {
    forall m :: Replayable(s, i, m) ==> !Settled(s, i, m.id)
  }

  /** A clear-all transaction is harmless, unless the pass that queued it still holds the lock. */
  ghost predicate ClearsOk(s: System) {
    forall i :: 0 <= i < |s.queue| && s.queue[i].ClearTx? ==>
      (s.holder == Clearing(true) && i == |s.queue| - 1) || Harmless(s, i)
  }

  /** While the receipt of a removed message exists, its tombstone exists. */
  ghost predicate FilesOk(s: System) {
    forall p :: p in s.files ==>
      p == PathOf(s.files[p]) && Genuine(s, s.files[p]) && (Guarded(s, s.files[p]) || Unmoved(s))
  }

  ghost predicate TxOk(s: System, i: nat)
    requires i < |s.queue|
  {
    match s.queue[i]
    case AcceptTx(m, _) =>
      && Genuine(s, m) && m.id !in s.db.messages && m.id !in s.retired
      && forall j :: 0 <= j < |s.queue| && j != i ==>
           && (s.queue[j].AcceptTx? ==> s.queue[j].m.id != m.id)
           && (j < i && s.queue[j].ReplayTx? ==> s.queue[j].m.id != m.id)
    case ReplayTx(m, _) =>
      && Genuine(s, m) && Guarded(s, m)
      && forall j :: 0 <= j < i && s.queue[j].ForgetTx? ==> PathOf(m) !in s.queue[j].paths
    case RetentionTx(_, _) => true
    case ForgetTx(paths) => Gone(s, paths)
    case ClearTx => true
  }

  ghost predicate QueueOk(s: System) {
    forall i :: 0 <= i < |s.queue| ==> TxOk(s, i)
  }

  ghost predicate HolderOk(s: System) {
    BornPaths(s, s.adrift) &&
    match s.holder
    case Free => true
    case Retaining(loaded, unlinked) => BornPaths(s, loaded) && Gone(s, unlinked)
    case Recovering(found) =>
      forall m :: m in found ==>
        && Genuine(s, m) && Guarded(s, m) && m.id !in s.unsent
        && forall j :: 0 <= j < |s.queue| && s.queue[j].ForgetTx? ==> PathOf(m) !in s.queue[j].paths
    case Clearing(sent) =>
      && s.accepting == {}
      && (sent ==> if s.queue == [] then s.db.messages == map[] && s.db.tombstones == {}
                   else s.queue[|s.queue| - 1].ClearTx?)
  }

  ghost predicate UnsentOk(s: System) {
    && s.unsent <= s.accepting
    && forall id :: id in s.unsent ==>
         && id in s.born && id !in s.db.messages && id !in s.retired
         && forall j :: 0 <= j < |s.queue| && (s.queue[j].AcceptTx? || s.queue[j].ReplayTx?) ==> s.queue[j].m.id != id
  }

  ghost predicate Core(s: System) {
    TablesOk(s) && FilesOk(s) && QueueOk(s) && HolderOk(s) && UnsentOk(s)
  }

  ghost predicate SystemInv(s: System) { Core(s) && ClearsOk(s) }

  lemma ManifestPathInjective(a: Id, d: Date, b: Id, e: Date)
    requires ManifestPath(a, d) == ManifestPath(b, e)
    ensures a == b && d == e
  {
    DatedInjective("manifests", d, a, ".json", "manifests", e, b, ".json");
    SuffixInjective(a, b, ".json");
  }

  // ----- cutting a clear-all off -----

  /**
   The step ends a clear-all pass whose transaction is queued or done, by cancellation or
   crash, while a receipt is on disk of a message that the transaction has removed or will.
   */
  ghost predicate Exposes(s: System, a: Action) {
    && s.holder == Clearing(true)
    && ((a.Unlock? && exists p :: p in s.files && Settled(s, |s.queue|, s.files[p].id))
        || (a.Crash? && ClearTx !in s.queue && exists p :: p in s.files && s.files[p].id in s.retired))
  }

  // ----- preservation -----

  lemma ReceiveInv(s: System, m: Manifest)
    requires Core(s) && Enabled(s, Receive(m))
    ensures Core(Next(s, Receive(m)))
  {
    var r := Next(s, Receive(m));
    forall i | 0 <= i < |r.queue|
      ensures TxOk(r, i) && (r.queue[i].AcceptTx? || r.queue[i].ReplayTx? ==> r.queue[i].m.id != m.id)
    {
      assert TxOk(s, i);
    }
  }

  lemma SendInv(s: System, m: Manifest, rows: map<Id, Delivery>)
    requires Core(s) && Enabled(s, Send(m, rows))
    ensures Core(Next(s, Send(m, rows)))
  {
    var r := Next(s, Send(m, rows));
    forall i | 0 <= i < |r.queue| ensures TxOk(r, i) {
      if i < |s.queue| { assert TxOk(s, i); }
    }
  }

  lemma AppendInv(s: System, tx: Tx)
    requires Core(s) && !s.holder.Clearing?
    requires match tx
             case ReplayTx(m, _) => s.holder.Recovering? && m in s.holder.found
             case RetentionTx(_, _) => true
             case ForgetTx(paths) => s.holder.Retaining? && paths == s.holder.unlinked
             case _ => false
    ensures Core(s.(queue := s.queue + [tx]))
  {
    var r := s.(queue := s.queue + [tx]);
    forall i | 0 <= i < |r.queue| ensures TxOk(r, i) {
      if i < |s.queue| { assert TxOk(s, i); }
    }
  }

  lemma QueueClearInv(s: System)
    requires Core(s) && Enabled(s, QueueClear)
    ensures Core(Next(s, QueueClear))
  {
    var r := Next(s, QueueClear);
    forall i | 0 <= i < |r.queue| ensures TxOk(r, i) {
      if i < |s.queue| { assert TxOk(s, i); }
    }
  }

  lemma ScanInv(s: System, found: set<Manifest>)
    requires Core(s) && Enabled(s, Scan(found))
    ensures Core(Next(s, Scan(found)))
  {
    var r := Next(s, Scan(found));
    forall i | 0 <= i < |r.queue| ensures TxOk(r, i) { assert TxOk(s, i); }
    forall m, j | m in found && 0 <= j < |s.queue| && s.queue[j].ForgetTx? ensures PathOf(m) !in s.queue[j].paths {
      assert TxOk(s, j);
    }
  }

  lemma FewerFiles(s: System, r: System)
    requires Core(s) && r == s.(files := r.files, holder := r.holder)
    requires r.files.Keys <= s.files.Keys && (forall p :: p in r.files ==> r.files[p] == s.files[p])
    requires HolderOk(r) && (Unmoved(s) ==> Unmoved(r) || r.files == map[])
    ensures Core(r)
  {
    assert FilesOk(r) && UnsentOk(r);
    hide FilesOk, UnsentOk, HolderOk;
    forall i | 0 <= i < |r.queue| ensures TxOk(r, i) { assert TxOk(s, i); }
  }

  /** Unlinking a tombstoned file, with the lock or by a thread that outlived its pass, or moving all receipts. */
  lemma UnlinkInv(s: System, a: Action)
    requires Core(s) && Enabled(s, a) && (a.Unlink? || a.UnlinkAdrift? || a.MoveAll?)
    ensures Core(Next(s, a))
  {
    hide QueueOk, FilesOk, TablesOk, UnsentOk;
    FewerFiles(s, Next(s, a));
  }

  lemma InHandBorn(s: System)
    requires Core(s)
    ensures BornPaths(s, InHand(s))
  {
    forall id, d | ManifestPath(id, d) in s.files.Keys ensures id in s.born {
      var m := s.files[ManifestPath(id, d)];
      ManifestPathInjective(id, d, m.id, m.message.date);
    }
  }

  lemma UnlockInv(s: System)
    requires Core(s) && !Exposes(s, Unlock)
    ensures Core(Next(s, Unlock))
  {
    var r := Next(s, Unlock);
    InHandBorn(s);
    forall i | 0 <= i < |r.queue| ensures TxOk(r, i) { assert TxOk(s, i); }
    forall p | p in s.files && Unmoved(s) ensures Guarded(r, s.files[p]) {
      assert !Settled(s, |s.queue|, s.files[p].id);
    }
  }

  /** Steps that change neither tables, files nor queue. */
  lemma HolderInv(s: System, r: System)
    requires Core(s) && r == s.(holder := r.holder, accepting := r.accepting, unsent := r.unsent)
    requires r.unsent <= s.unsent && r.unsent <= r.accepting <= s.accepting
    requires (r.holder == s.holder) || (!Unmoved(s) && HolderOk(s.(holder := r.holder)))
    ensures Core(r)
  {
    forall i | 0 <= i < |r.queue| ensures TxOk(r, i) { assert TxOk(s, i); }
  }

  lemma EditInv(s: System, deliveries: map<Id, Delivery>)
    requires Core(s)
    ensures Core(Next(s, Edit(deliveries)))
  {
    var r := Next(s, Edit(deliveries));
    forall i | 0 <= i < |r.queue| ensures TxOk(r, i) { assert TxOk(s, i); }
  }

  lemma CrashInv(s: System)
    requires Core(s) && !Exposes(s, Crash)
    ensures Core(Next(s, Crash))
  {
  }

  // ----- the writer runs its next transaction -----

  /** The queue after its head has been taken, before the head takes effect. */
  lemma PopInv(s: System)
    requires Core(s) && s.queue != [] && (s.queue[0].ClearTx? ==> s.holder != Clearing(true) || |s.queue| > 1)
    ensures Core(s.(queue := s.queue[1..]))
  {
    var r := s.(queue := s.queue[1..]);
    forall j | 0 <= j < |r.queue| ensures r.queue[j] == s.queue[j + 1] {}
    forall i | 0 <= i < |r.queue| ensures TxOk(r, i) {
      assert TxOk(s, i + 1);
    }
  }

  /** A genuine receipt of a message that was never removed is inserted. */
  lemma InsertInv(s: System, m: Manifest, rows: map<Id, Delivery>)
    requires Core(s) && Genuine(s, m) && m.id !in s.retired && m.id !in s.unsent && !Unmoved(s)
    requires forall j :: 0 <= j < |s.queue| && s.queue[j].AcceptTx? ==> s.queue[j].m.id != m.id
    ensures Core(s.(db := Insert(s.db, m, rows)))
  {
    var r := s.(db := Insert(s.db, m, rows));
    forall i | 0 <= i < |r.queue| ensures TxOk(r, i) { assert TxOk(s, i); }
  }

  /** Removing messages leaves a tombstone on every receipt of theirs. */
  lemma ExpireTombstones(s: System, now: int, batch: seq<Row>, id: Id)
    requires TablesOk(s) && id in s.db.messages && id !in Expire(s.db, now, batch).messages
    ensures ManifestPath(id, s.born[id]) in Expire(s.db, now, batch).tombstones
  {
    var orphans := Orphans(s.db, now, batch);
    assert ManifestPath(id, s.db.messages[id].date) in PathsOf(id, s.db.messages[id]);
    assert ManifestPath(id, s.db.messages[id].date) in Tombstones(s.db, orphans);
  }

  lemma ApplyTombstones(s: System, tx: Tx)
    requires TombstonesOk(s)
    ensures TombstonesOk(Apply(s, tx))
  {
    var r := Apply(s, tx);
    forall m: Manifest | Tombstoned(r.db, m) ensures m.id in r.retired {
      if !Tombstoned(s.db, m) {
        var plain := Message(m.message.date, false, false, {});
        var p := if PathOf(m) in r.db.tombstones then PathOf(m) else RawPath(m.id, m.message.date);
        var o :| o in Orphans(s.db, tx.now, tx.batch) && o in s.db.messages && p in PathsOf(o, s.db.messages[o]);
        PathsDisjoint(o, s.db.messages[o], m.id, plain, p);
      }
    }
  }

  lemma RetentionInv(s: System, now: int, batch: seq<Row>)
    requires Core(s) && !Unmoved(s)
    ensures Core(Apply(s, RetentionTx(now, batch)))
  {
    var r := Apply(s, RetentionTx(now, batch));
    ApplyTombstones(s, RetentionTx(now, batch));
    forall m: Manifest | Genuine(s, m) && Guarded(s, m) ensures Guarded(r, m) {
      if m.id in r.retired && m.id !in s.retired {
        ExpireTombstones(s, now, batch, m.id);
      }
    }
    forall i | 0 <= i < |r.queue| ensures TxOk(r, i) { assert TxOk(s, i); }
  }

  /** Forgetting the tombstone of an unlinked receipt exposes nothing that could be replayed. */
  lemma ForgetInv(s: System, paths: set<Path>)
    requires Core(s) && Gone(s, paths)
    requires forall j :: 0 <= j < |s.queue| && s.queue[j].ReplayTx? ==> PathOf(s.queue[j].m) !in paths
    requires s.holder.Recovering? ==> forall m :: m in s.holder.found ==> PathOf(m) !in paths
    ensures Core(Apply(s, ForgetTx(paths)))
  {
    var r := Apply(s, ForgetTx(paths));
    forall i | 0 <= i < |r.queue| ensures TxOk(r, i) { assert TxOk(s, i); }
  }

  /** The tables are emptied by a pass that holds the lock: nothing is queued behind it. */
  lemma ClearLockedInv(s: System)
    requires Core(s) && s.queue == [ClearTx] && s.holder == Clearing(true)
    ensures Core(Next(s, Execute))
  {
    hide QueueOk;
    assert QueueOk(Next(s, Execute)) by { assert Next(s, Execute).queue == []; EmptyQueue(Next(s, Execute)); }
  }

  lemma EmptyQueue(s: System)
    requires s.queue == []
    ensures QueueOk(s)
  {
  }

  /** The tables are emptied on behalf of a pass that is over. */
  lemma ClearAdriftInv(s: System)
    requires Core(s) && !Unmoved(s) && Harmless(s, -1)
    ensures Core(Apply(s, ClearTx))
  {
    var r := Apply(s, ClearTx);
    forall m: Manifest | Replayable(s, -1, m) ensures Guarded(r, m) {}
    forall i | 0 <= i < |r.queue| ensures TxOk(r, i) { assert TxOk(s, i); }
    assert FilesOk(r);
  }

  lemma StillQueued(s: System)
    requires Core(s) && |s.queue| > 1
    ensures !Unmoved(s.(queue := s.queue[1..]))
  {
    if s.holder == Clearing(true) { assert s.queue[1..][|s.queue| - 2] == ClearTx; }
  }

  lemma ExecuteClear(s: System)
    requires SystemInv(s) && s.queue != [] && s.queue[0].ClearTx?
    ensures Core(Next(s, Execute))
  {
    var p := s.(queue := s.queue[1..]);
    if s.holder == Clearing(true) && |s.queue| == 1 {
      ClearLockedInv(s);
    } else {
      PopInv(s);
      if |s.queue| > 1 { StillQueued(s); }
      assert Harmless(s, 0);
      PopHarmless(s, p, 0);
      hide Core, Harmless, Unmoved;
      ClearAdriftInv(p);
    }
  }

  lemma ExecuteInv(s: System)
    requires SystemInv(s) && s.queue != []
    ensures Core(Next(s, Execute))
  {
    var p, tx := s.(queue := s.queue[1..]), s.queue[0];
    if tx.ClearTx? {
      ExecuteClear(s);
    } else {
      PopInv(s);
      if |s.queue| > 1 { StillQueued(s); }
      assert TxOk(s, 0);
      forall j | 0 <= j < |p.queue| ensures p.queue[j] == s.queue[j + 1] && TxOk(s, j + 1) {}
      hide FilesOk, TablesOk, ClearsOk, QueueOk;
      match tx
      case AcceptTx(m, rows) => InsertInv(p, m, rows);
      case ReplayTx(m, rows) => if !Tombstoned(s.db, m) { InsertInv(p, m, rows); }
      case RetentionTx(now, batch) => RetentionInv(p, now, batch);
      case ForgetTx(paths) => ForgetInv(p, paths);
    }
  }

  // ----- harmless clears -----

  /** After the head is gone, transaction `i` has moved up by one. */
  lemma PopHarmless(s: System, p: System, i: nat)
    requires s.queue != [] && Harmless(s, i)
    requires p.queue == s.queue[1..] && p.files == s.files && p.holder == s.holder
    requires forall id :: id in p.retired || id in p.db.messages ==> Settled(s, if i == 0 then 0 else 1, id)
    ensures Harmless(p, i - 1)
  {
    forall j | 0 <= j < |p.queue| ensures p.queue[j] == s.queue[j + 1] {}
    forall m | Replayable(p, i - 1, m) ensures !Settled(p, i - 1, m.id) {
      assert Replayable(s, i, m);
    }
  }

  /** Nobody becomes settled but by the transactions that were queued before. */
  lemma HarmlessKept(s: System, r: System, i: nat)
    requires Harmless(s, i)
    requires forall id :: Settled(r, i, id) ==> Settled(s, i, id)
    requires forall m :: Replayable(r, i, m) ==> Replayable(s, i, m) || !Settled(r, i, m.id)
    ensures Harmless(r, i)
  {
  }

  lemma ApplyRest(s: System, tx: Tx)
    ensures var r := Apply(s, tx);
            r.queue == s.queue && r.files == s.files && r.holder == s.holder && r.accepting == s.accepting && r.born == s.born
  {
  }

  lemma ApplySettles(s: System, tx: Tx, id: Id)
    requires id in Apply(s, tx).retired || id in Apply(s, tx).db.messages
    ensures id in s.retired || id in s.db.messages || ((tx.AcceptTx? || tx.ReplayTx?) && tx.m.id == id)
  {
    hide Tombstoned, Orphans;
  }

  lemma ExecuteClears(s: System)
    requires SystemInv(s) && s.queue != []
    ensures ClearsOk(Next(s, Execute))
  {
    hide Core, Harmless, Expire, Apply;
    var p, r := s.(queue := s.queue[1..]), Next(s, Execute);
    ApplyRest(p, s.queue[0]);
    forall id | id in r.retired || id in r.db.messages ensures Settled(s, 1, id) {
      ApplySettles(p, s.queue[0], id);
    }
    hide Settled;
    forall i | 0 <= i < |r.queue| && r.queue[i].ClearTx?
      ensures (r.holder == Clearing(true) && i == |r.queue| - 1) || Harmless(r, i)
    {
      assert s.queue[i + 1].ClearTx?;
      if Harmless(s, i + 1) { PopHarmless(s, r, i + 1); }
    }
  }

  /** Every other step leaves a harmless clear harmless; the steps that append put nothing before it. */
  lemma OtherClears(s: System, a: Action)
    requires SystemInv(s) && Enabled(s, a) && !a.Execute? && !a.Unlock? && !a.Crash?
    ensures ClearsOk(Next(s, a))
  {
    var r := Next(s, a);
    assert s.holder == Clearing(true) ==> r.queue == s.queue && (a.MoveAll? || r.holder == s.holder);
    hide Core, Harmless;
    forall i | 0 <= i < |r.queue| && r.queue[i].ClearTx?
      ensures (r.holder == Clearing(true) && i == |r.queue| - 1) || Harmless(r, i)
    {
      if i < |s.queue| { assert s.queue[i] == r.queue[i] && s.queue[i] in s.queue; }
      if i < |s.queue| && Harmless(s, i) { OtherHarmless(s, a, i); }
    }
  }

  lemma SettledBorn(s: System, i: nat, id: Id)
    requires Core(s) && Settled(s, i, id)
    ensures id in s.born
  {
    if id !in s.retired && id !in s.db.messages {
      var j :| 0 <= j < |s.queue| && (s.queue[j].AcceptTx? || s.queue[j].ReplayTx?) && s.queue[j].m.id == id;
      assert TxOk(s, j);
    }
  }

  lemma OtherHarmless(s: System, a: Action, i: nat)
    requires Core(s) && Enabled(s, a) && !a.Execute? && !a.Unlock? && !a.Crash?
    requires i < |s.queue| && Harmless(s, i)
    ensures Harmless(Next(s, a), i)
  {
    var r := Next(s, a);
    if a.Receive? && Settled(s, i, a.m.id) { SettledBorn(s, i, a.m.id); }
    hide Core, Harmless;
    assert r.db.messages == s.db.messages && r.retired == s.retired && |s.queue| <= |r.queue|;
    assert forall j :: 0 <= j < |s.queue| ==> r.queue[j] == s.queue[j];
    forall m | Replayable(r, i, m) && !Replayable(s, i, m) ensures a.Receive? && m == a.m {}
    hide Next, Replayable;
    HarmlessKept(s, r, i);
  }

  lemma UnlockClears(s: System)
    requires SystemInv(s) && !Exposes(s, Unlock)
    ensures ClearsOk(Next(s, Unlock))
  {
    var r := Next(s, Unlock);
    forall i | 0 <= i < |r.queue| && r.queue[i].ClearTx? ensures Harmless(r, i) {
      if s.holder == Clearing(true) && i == |s.queue| - 1 {
        forall m | Replayable(s, i, m) ensures !Settled(s, i, m.id) {
          assert !Settled(s, |s.queue|, m.id);
        }
      }
      HarmlessKept(s, r, i);
    }
  }

  lemma StepCore(s: System, a: Action)
    requires SystemInv(s) && Enabled(s, a) && !Exposes(s, a)
    ensures Core(Next(s, a))
  {
    match a
    case Receive(m) => ReceiveInv(s, m);
    case Send(m, rows) => SendInv(s, m, rows);
    case QueueRetention(now, batch) => AppendInv(s, RetentionTx(now, batch));
    case Unlink(_) => UnlinkInv(s, a);
    case UnlinkAdrift(_) => UnlinkInv(s, a);
    case MoveAll => UnlinkInv(s, a);
    case QueueForget => AppendInv(s, ForgetTx(s.holder.unlinked));
    case QueueClear => QueueClearInv(s);
    case Unlock => UnlockInv(s);
    case Scan(found) => ScanInv(s, found);
    case QueueReplay(m, rows) => AppendInv(s, ReplayTx(m, rows));
    case Execute => ExecuteInv(s);
    case Edit(d) => EditInv(s, d);
    case Crash => CrashInv(s);
    case LoadGc => LoadInv(s);
    case _ => HolderInv(s, Next(s, a));
  }

  lemma LoadInv(s: System)
    requires Core(s) && s.holder.Retaining?
    ensures Core(Next(s, LoadGc))
  {
    forall id, d | ManifestPath(id, d) in s.db.tombstones ensures id in s.born {
      assert Tombstoned(s.db, Manifest(id, Message(d, false, false, {})));
    }
    HolderInv(s, Next(s, LoadGc));
  }

  lemma StepInv(s: System, a: Action)
    requires SystemInv(s) && Enabled(s, a) && !Exposes(s, a)
    ensures SystemInv(Next(s, a)) && s.retired <= Next(s, a).retired
  {
    StepCore(s, a);
    hide Core;
    if a.Execute? {
      ExecuteClears(s);
    } else if a.Unlock? {
      UnlockClears(s);
    } else if !a.Crash? {
      OtherClears(s, a);
    }
  }

  // ----- runs -----

  /** A run in which no clear-all is cut off where that exposes a receipt. */
  ghost predicate Reaches(s: System, acts: seq<Action>, r: System)
    decreases |acts|
  {
    if acts == [] then r == s
    else Enabled(s, acts[0]) && !Exposes(s, acts[0]) && Reaches(Next(s, acts[0]), acts[1..], r)
  }

  lemma {:induction false} RunInv(s: System, acts: seq<Action>, r: System)
    requires SystemInv(s) && Reaches(s, acts, r)
    ensures SystemInv(r) && s.retired <= r.retired
    decreases |acts|
  {
    hide SystemInv, Enabled, Exposes, Next;
    if acts != [] {
      StepInv(s, acts[0]);
      RunInv(Next(s, acts[0]), acts[1..], r);
    }
  }

  /**
   No resurrection: once retention or clear-all has removed a message, no later state of any
   run holds it again, and as long as its receipt is on disk its tombstone stands in replay's
   way, or clear-all still holds the lock and has the receipt to move.
   */
  lemma NoResurrection(before: seq<Action>, s: System, after: seq<Action>, r: System, id: Id)
    requires Reaches(Initial(), before, s) && Reaches(s, after, r)
    requires id in s.retired
    ensures id !in r.db.messages
    ensures id in r.born
    ensures var p := ManifestPath(id, r.born[id]); p in r.files ==> p in r.db.tombstones || Unmoved(r)
  {
    RunInv(Initial(), before, s);
    RunInv(s, after, r);
    hide Reaches, QueueOk, HolderOk, UnsentOk, ClearsOk;
    var p := ManifestPath(id, r.born[id]);
    if p in r.files {
      ManifestPathInjective(id, r.born[id], r.files[p].id, r.files[p].message.date);
    }
  }

  // ----- what is accepted stays -----

  /** The message is stored as received, with every delivery row given unless there was one of that id. */
  ghost predicate StoredWith(before: Db, after: Db, m: Manifest, rows: map<Id, Delivery>) {
    && after.tombstones == before.tombstones
    && after.messages.Keys == before.messages.Keys + {m.id}
    && after.deliveries.Keys == before.deliveries.Keys + rows.Keys
    && (m.id !in before.messages ==> after.messages[m.id] == m.message)
    && (forall id :: id in before.messages ==> after.messages[id] == before.messages[id])
    && (forall k :: k in before.deliveries ==> after.deliveries[k] == before.deliveries[k])
    && (forall k :: k in rows && k !in before.deliveries ==> after.deliveries[k] == rows[k])
  }

  /**
   The writer's next transaction: an accept always stores its message and rows, a replay does
   unless the raw file or the receipt is tombstoned, and then it changes nothing.
   */
  lemma StoreIs(s: System)
    requires s.queue != [] && (s.queue[0].AcceptTx? || s.queue[0].ReplayTx?)
    ensures var r, tx := Next(s, Execute), s.queue[0]; var m := tx.m; var date := m.message.date;
            if tx.ReplayTx? && (["raw", date.0, date.1, date.2, m.id + ".eml"] in s.db.tombstones
                                || ["manifests", date.0, date.1, date.2, m.id + ".json"] in s.db.tombstones)
            then r.db == s.db else StoredWith(s.db, r.db, m, tx.rows)
  {
  }

  lemma StepKeepsMessage(s: System, a: Action, id: Id)
    requires Enabled(s, a) && id in s.db.messages
    ensures var r := Next(s, a);
            id in r.retired || (id in r.db.messages && r.db.messages[id] == s.db.messages[id])
  {
    hide Orphans, Confirmed, Tombstoned;
  }

  /** In every run a stored message stays as it is until retention or clear-all removes it. */
  lemma {:induction false} MessageStays(s: System, acts: seq<Action>, r: System, id: Id)
    requires Reaches(s, acts, r) && id in s.db.messages
    ensures id in r.retired || (id in r.db.messages && r.db.messages[id] == s.db.messages[id])
    decreases |acts|
  {
    if acts != [] {
      StepKeepsMessage(s, acts[0], id);
      hide Next, Enabled, Exposes;
      if id in Next(s, acts[0]).retired {
        RetiredStays(Next(s, acts[0]), acts[1..], r, id);
      } else {
        MessageStays(Next(s, acts[0]), acts[1..], r, id);
      }
    }
  }

  lemma StepKeepsRetired(s: System, a: Action)
    requires Enabled(s, a)
    ensures s.retired <= Next(s, a).retired
  {
    hide Orphans, Confirmed, Tombstoned;
  }

  lemma {:induction false} RetiredStays(s: System, acts: seq<Action>, r: System, id: Id)
    requires Reaches(s, acts, r) && id in s.retired
    ensures id in r.retired
    decreases |acts|
  {
    if acts != [] {
      StepKeepsRetired(s, acts[0]);
      hide Next, Enabled, Exposes;
      RetiredStays(Next(s, acts[0]), acts[1..], r, id);
    }
  }

  /** A garbage-collection pass gets rid of any tombstoned file, and then of its tombstone. */
  lemma GarbageGoes(s: System, p: Path)
    requires s.holder.Retaining? && s.queue == [] && p in s.db.tombstones
    ensures exists r :: Reaches(s, [LoadGc] + ([Unlink(p)] + ([QueueForget] + ([Execute] + []))), r)
                        && p !in r.files && p !in r.db.tombstones && r.files == s.files - {p} && r.db.messages == s.db.messages
  {
    hide Reaches;
    var a := s.(holder := Retaining(s.db.tombstones, {}));
    var b := a.(files := s.files - {p}, holder := Retaining(s.db.tombstones, {p}));
    var c := b.(queue := [ForgetTx({p})]);
    var d := b.(db := s.db.(tombstones := s.db.tombstones - {p}));
    assert c.queue[1..] == [] && {} + {p} == {p};
    assert Next(s, LoadGc) == a && Next(a, Unlink(p)) == b && Next(b, QueueForget) == c && Next(c, Execute) == d;
    hide Next;
    EndRun(d);
    StepRun(c, Execute, [], d);
    StepRun(b, QueueForget, [Execute] + [], d);
    StepRun(a, Unlink(p), [QueueForget] + ([Execute] + []), d);
    StepRun(s, LoadGc, [Unlink(p)] + ([QueueForget] + ([Execute] + [])), d);
  }

  lemma EndRun(s: System)
    ensures Reaches(s, [], s)
  {
  }

  /** An undisturbed retention pass applies its batch and gives the lock back. */
  lemma RetentionRuns(s: System, now: int, batch: seq<Row>) returns (r: System)
    requires s.holder.Free? && s.queue == []
    ensures Reaches(s, [LockRetention] + ([QueueRetention(now, batch)] + ([Execute] + ([Unlock] + []))), r)
    ensures r.db == Expire(s.db, now, batch) && r.files == s.files && r.holder.Free? && r.queue == []
    ensures r.retired == s.retired + (s.db.messages.Keys - r.db.messages.Keys)
  {
    hide Reaches, Expire, Settled;
    var tx := RetentionTx(now, batch);
    var a := s.(holder := Retaining({}, {}));
    var b := a.(queue := [tx]);
    var c := Apply(a, tx);
    r := c.(holder := Free);
    assert b.queue[1..] == [] && b.(queue := []) == a;
    assert Next(s, LockRetention) == a && Next(a, QueueRetention(now, batch)) == b && Next(b, Execute) == c && Next(c, Unlock) == r;
    hide Next;
    EndRun(r);
    StepRun(c, Unlock, [], r);
    StepRun(b, Execute, [Unlock] + [], r);
    StepRun(a, QueueRetention(now, batch), [Execute] + ([Unlock] + []), r);
    StepRun(s, LockRetention, [QueueRetention(now, batch)] + ([Execute] + ([Unlock] + [])), r);
  }

  lemma MoveRuns(s: System, r: System)
    requires s.holder == Clearing(true) && s.queue == [] && r == s.(files := map[], holder := Free)
    ensures Reaches(s, [MoveAll] + ([Unlock] + []), r)
  {
    hide Reaches, Settled, Apply;
    var d := s.(files := map[], holder := Clearing(false));
    assert Next(s, MoveAll) == d && Next(d, Unlock) == r;
    hide Next;
    EndRun(r);
    StepRun(d, Unlock, [], r);
    StepRun(s, MoveAll, [Unlock] + [], r);
  }

  /** An undisturbed clear-all leaves no message, no tombstone and no receipt, and gives the lock back. */
  lemma ClearRuns(s: System) returns (r: System)
    requires s.holder.Free? && s.queue == [] && s.accepting == {}
    ensures Reaches(s, [LockClear] + ([QueueClear] + ([Execute] + ([MoveAll] + ([Unlock] + [])))), r)
    ensures r.db == Db(map[], map[], {}) && r.files == map[] && r.holder.Free? && r.queue == []
    ensures r.retired == s.retired + s.db.messages.Keys
  {
    hide Reaches, Settled;
    var a := s.(holder := Clearing(false));
    var b := a.(holder := Clearing(true), queue := [ClearTx]);
    var c := b.(queue := [], db := Db(map[], map[], {}), retired := s.retired + s.db.messages.Keys);
    r := c.(files := map[], holder := Free);
    assert b.queue[1..] == [];
    assert Next(s, LockClear) == a && Next(a, QueueClear) == b && Next(b, Execute) == c;
    hide Next;
    MoveRuns(c, r);
    StepRun(b, Execute, [MoveAll] + ([Unlock] + []), r);
    StepRun(a, QueueClear, [Execute] + ([MoveAll] + ([Unlock] + [])), r);
    StepRun(s, LockClear, [QueueClear] + ([Execute] + ([MoveAll] + ([Unlock] + []))), r);
  }

  /**
   A cancelled pass drops the lock but neither what it queued nor what its threads have in
   hand; a crash drops all of it and nothing on disk.
   */
  lemma CutOffIs(s: System, p: Path)
    ensures Enabled(s, Unlock) && Enabled(s, Crash)
    ensures var r := Next(s, Unlock);
            && r.holder.Free? && r.queue == s.queue && r.db == s.db && r.files == s.files && r.accepting == s.accepting
            && (Enabled(r, UnlinkAdrift(p)) <==>
                  || p in s.adrift || (s.holder.Retaining? && p in s.holder.loaded)
                  || (Unmoved(s) && p in s.files))
            && (Enabled(r, UnlinkAdrift(p)) ==> Next(r, UnlinkAdrift(p)) == r.(files := r.files - {p}))
    ensures var r := Next(s, Crash);
            && r == System(s.db, s.files, [], Free, {}, {}, {}, s.born, s.retired)
  {
    hide Settled;
  }

  /** Delivery rows may change in any way between transactions. */
  lemma EditIs(s: System, deliveries: map<Id, Delivery>)
    ensures Enabled(s, Edit(deliveries))
    ensures Next(s, Edit(deliveries)) == s.(db := Db(s.db.messages, deliveries, s.db.tombstones))
  {
  }

  // ----- what an exposed receipt leads to -----

  /** The writer runs everything that is queued. */
  ghost function Drained(s: System): (r: System)
    decreases |s.queue|
  {
    if s.queue == [] then s
    else
      var p := s.(queue := s.queue[1..]);
      ApplyRest(p, s.queue[0]);
      Drained(Apply(p, s.queue[0]))
  }

  function Executes(n: nat): (acts: seq<Action>) { seq(n, _ => Execute) }

  lemma {:induction false} DrainRuns(s: System)
    requires s.holder.Free?
    ensures Reaches(s, Executes(|s.queue|), Drained(s))
    decreases |s.queue|
  {
    if s.queue != [] {
      var p := s.(queue := s.queue[1..]);
      var next := Apply(p, s.queue[0]);
      ApplyRest(p, s.queue[0]);
      hide Apply, Reaches;
      DrainRuns(next);
      StepRun(s, Execute, Executes(|next.queue|), Drained(s));
      assert [Execute] + Executes(|next.queue|) == Executes(|s.queue|);
    }
  }

  lemma ApplyKeepsSettled(s: System, tx: Tx, id: Id)
    requires TombstonesOk(s)
    requires id in s.retired || id in s.db.messages || ((tx.AcceptTx? || tx.ReplayTx?) && tx.m.id == id)
    ensures var r := Apply(s, tx); id in r.retired || id in r.db.messages
  {
  }

  lemma ApplySettled(s: System, id: Id)
    requires TombstonesOk(s) && s.queue != [] && Settled(s, |s.queue|, id)
    ensures Settled(Apply(s.(queue := s.queue[1..]), s.queue[0]), |s.queue| - 1, id)
  {
    var p, tx := s.(queue := s.queue[1..]), s.queue[0];
    ApplyRest(p, tx);
    if id in s.retired || id in s.db.messages || ((tx.AcceptTx? || tx.ReplayTx?) && tx.m.id == id) {
      ApplyKeepsSettled(p, tx, id);
    } else {
      var j :| 0 < j < |s.queue| && (s.queue[j].AcceptTx? || s.queue[j].ReplayTx?) && s.queue[j].m.id == id;
      assert p.queue[j - 1] == s.queue[j];
    }
  }

  /** Whatever was settled is stored or removed in the end, and behind a clear-all it is removed. */
  lemma {:induction false} DrainedIs(s: System, id: Id)
    requires TombstonesOk(s) && Settled(s, |s.queue|, id)
    ensures var r := Drained(s);
            && r.files == s.files && r.holder == s.holder && r.accepting == s.accepting && r.queue == []
            && (id in r.retired || id in r.db.messages)
            && (s.queue != [] && s.queue[|s.queue| - 1].ClearTx? ==> r.db == Db(map[], map[], {}))
    decreases |s.queue|
  {
    if s.queue != [] {
      var p, tx := s.(queue := s.queue[1..]), s.queue[0];
      var next := Apply(p, tx);
      ApplyRest(p, tx);
      ApplyTombstones(p, tx);
      assert |s.queue| > 1 ==> next.queue[|next.queue| - 1] == s.queue[|s.queue| - 1];
      ApplySettled(s, id);
      hide Apply, Settled, TombstonesOk;
      DrainedIs(next, id);
    }
  }

  lemma StepRun(s: System, a: Action, more: seq<Action>, r: System)
    requires Enabled(s, a) && !Exposes(s, a) && Reaches(Next(s, a), more, r)
    ensures Reaches(s, [a] + more, r)
  {
    hide Enabled, Exposes, Next;
    assert ([a] + more)[1..] == more;
  }

  lemma ReplayStep(s: System, m: Manifest) returns (r: System)
    requires s.holder == Recovering({m}) && s.queue == [] && s.db.tombstones == {}
    ensures Reaches(s, [QueueReplay(m, map[])] + ([Execute] + []), r) && m.id in r.db.messages
  {
    var tx := ReplayTx(m, map[]);
    var c := s.(queue := [tx]);
    r := Apply(s, tx);
    assert m.id in r.db.messages;
    assert Next(s, QueueReplay(m, map[])) == c && Next(c, Execute) == r by {
      hide Apply;
      assert c.queue[1..] == [] && c.(queue := []) == s;
    }
    hide Apply, Next;
    StepRun(c, Execute, [], r);
    StepRun(s, QueueReplay(m, map[]), [Execute] + [], r);
  }

  /** With the lock free, no accept and no tombstone, a receipt on disk is replayed. */
  lemma ReplayRuns(s: System, p: Path)
    requires s.holder.Free? && s.queue == [] && s.accepting == {} && s.db.tombstones == {}
    requires p in s.files && PathOf(s.files[p]) == p
    ensures exists acts, r :: Reaches(s, acts, r) && s.files[p].id in r.db.messages
  {
    hide Apply, Reaches, PathOf;
    var m := s.files[p];
    var a, b := s.(holder := Recovering({})), s.(holder := Recovering({m}));
    var r := ReplayStep(b, m);
    var more := [QueueReplay(m, map[])] + ([Execute] + []);
    assert Next(s, LockRecovery) == a && Next(a, Scan({m})) == b;
    hide Next;
    StepRun(a, Scan({m}), more, r);
    StepRun(s, LockRecovery, [Scan({m})] + more, r);
  }

  /** Some continuation of `s` holds a message after it was removed. */
  ghost predicate Resurrects(s: System) {
    exists acts, mid, more, r, id ::
      Reaches(s, acts, mid) && id in mid.retired && Reaches(mid, more, r) && id in r.db.messages
  }

  /**
   Ending a clear-all early is the only hazard: from any state of a run, a step leads to the
   return of a removed message exactly when it exposes a receipt.
   */
  lemma CutOffClearIsTheHazard(before: seq<Action>, s: System, a: Action)
    requires Reaches(Initial(), before, s) && Enabled(s, a)
    ensures Resurrects(Next(s, a)) <==> Exposes(s, a)
  {
    RunInv(Initial(), before, s);
    if Exposes(s, a) {
      ExposedReturns(s, a);
    } else if Resurrects(Next(s, a)) {
      hide SystemInv, Exposes;
      var acts, mid, more, r, id :| Reaches(Next(s, a), acts, mid) && id in mid.retired && Reaches(mid, more, r) && id in r.db.messages;
      StepInv(s, a);
      RunInv(Next(s, a), acts, mid);
      RunInv(mid, more, r);
      RetiredAbsent(r, id);
      assert false;
    }
  }

  lemma RetiredAbsent(s: System, id: Id)
    requires SystemInv(s) && id in s.retired
    ensures id !in s.db.messages
  {
  }

  lemma ExposedPath(s: System, a: Action) returns (p: Path)
    requires SystemInv(s) && Exposes(s, a)
    ensures p in s.files && PathOf(s.files[p]) == p && s.accepting == {} && TombstonesOk(s)
    ensures var t := Next(s, a);
            && t == s.(holder := Free, adrift := t.adrift, unsent := t.unsent)
            && Settled(t, |t.queue|, s.files[p].id)
            && if t.queue == [] then t.db.messages == map[] && t.db.tombstones == {} else t.queue[|t.queue| - 1].ClearTx?
  {
    p :| p in s.files && (if a.Unlock? then Settled(s, |s.queue|, s.files[p].id) else s.files[p].id in s.retired);
    if a.Unlock? {
      assert Settled(Next(s, a), |s.queue|, s.files[p].id);
    }
  }

  lemma ExposedReturns(s: System, a: Action)
    requires SystemInv(s) && Exposes(s, a)
    ensures Resurrects(Next(s, a))
  {
    assert Enabled(s, a);
    hide SystemInv, Exposes, PathOf, Reaches, Enabled;
    var p := ExposedPath(s, a);
    var t, id := Next(s, a), s.files[p].id;
    hide Next;
    DrainedIs(t, id);
    DrainRuns(t);
    var mid := Drained(t);
    assert mid.db.messages == map[] && mid.db.tombstones == {};
    hide Drained, Settled;
    ReplayRuns(mid, p);
    var more, r :| Reaches(mid, more, r) && id in r.db.messages;
  }

  lemma {:induction false} RunStep(s: System, acts: seq<Action>, r: System, a: Action)
    requires Reaches(s, acts, r) && Enabled(r, a) && !Exposes(r, a)
    ensures Reaches(s, acts + [a], Next(r, a))
    decreases |acts|
  {
    hide Enabled, Exposes, Next;
    if acts == [] {
      assert [a][1..] == [];
    } else {
      RunStep(Next(s, acts[0]), acts[1..], r, a);
      assert (acts + [a])[1..] == acts[1..] + [a];
    }
  }

  /** A stored message, its receipt on disk and nothing in progress. */
  function Stored(m: Manifest): (s: System) {
    System(Db(map[m.id := m.message], map[], {}), map[PathOf(m) := m], [], Free, {}, {}, {}, map[m.id := m.message.date], {})
  }

  lemma StoredReached(m: Manifest)
    ensures exists acts :: Reaches(Initial(), acts, Stored(m))
  {
    var a := Initial().(files := map[PathOf(m) := m], born := map[m.id := m.message.date], accepting := {m.id}, unsent := {m.id});
    var b := a.(queue := [AcceptTx(m, map[])], unsent := {});
    var c := b.(queue := [], db := Insert(b.db, m, map[]));
    assert Next(Initial(), Receive(m)) == a;
    assert Next(a, Send(m, map[])) == b;
    assert b.queue[1..] == [];
    assert Next(b, Execute) == c;
    assert Next(c, Leave(m.id)) == Stored(m);
    hide Next;
    StepRun(c, Leave(m.id), [], Stored(m));
    hide Reaches;
    StepRun(b, Execute, [Leave(m.id)] + [], Stored(m));
    StepRun(a, Send(m, map[]), [Execute] + ([Leave(m.id)] + []), Stored(m));
    StepRun(Initial(), Receive(m), [Send(m, map[])] + ([Execute] + ([Leave(m.id)] + [])), Stored(m));
  }

  /** After a clear-all has emptied the tables, before it moves the receipts. */
  function Emptied(s: System): (r: System) {
    s.(holder := Clearing(true), db := Db(map[], map[], {}), retired := s.retired + s.db.messages.Keys)
  }

  lemma EmptiedReached(before: seq<Action>, s: System)
    requires Reaches(Initial(), before, s) && s.holder.Free? && s.queue == [] && s.accepting == {}
    ensures exists acts :: Reaches(Initial(), acts, Emptied(s))
  {
    hide Reaches, Initial;
    var a, b := s.(holder := Clearing(false)), s.(holder := Clearing(true), queue := [ClearTx]);
    assert Next(s, LockClear) == a && Next(a, QueueClear) == b;
    assert b.queue[1..] == [];
    assert Next(b, Execute) == Emptied(s);
    hide Next;
    RunStep(Initial(), before, s, LockClear);
    RunStep(Initial(), before + [LockClear], a, QueueClear);
    RunStep(Initial(), before + [LockClear] + [QueueClear], b, Execute);
  }

  /** Of any message: stored, cleared, and back with the recovery after a crash or a cancellation before the move. */
  lemma CutOffClear(m: Manifest, a: Action)
    requires a.Crash? || a.Unlock?
    ensures exists acts, s :: Reaches(Initial(), acts, s) && Unmoved(s) && m.id in s.retired && Resurrects(Next(s, a))
  {
    StoredReached(m);
    var before :| Reaches(Initial(), before, Stored(m));
    EmptiedReached(before, Stored(m));
    var s := Emptied(Stored(m));
    var acts :| Reaches(Initial(), acts, s);
    hide Reaches, Initial, Resurrects;
    assert Unmoved(s) && Enabled(s, a) && m.id in s.retired;
    assert Exposes(s, a) by { assert PathOf(m) in s.files && s.files[PathOf(m)] == m && Settled(s, 0, m.id); }
    CutOffClearIsTheHazard(acts, s, a);
  }
}
