/**
 The authentication and usage-policy caches of the API-key service, against the key table.

 A cold load notes the cache epoch, then reads the key row and three grant tables in four
 separate statements, so a commit may strike between any two of them; a mutation commits in
 the writer first and invalidates afterwards.  Those are separate actions here, interleaved
 freely, for any number of concurrent loads and mutations.
 */
module KeyCache {
  import opened Seqs
  import opened OrderedDict

  const TTL: real := 2.0
  const MAX_ENTRIES: nat := 4096
  const TABLES: nat := 3

  type KeyId = nat
  type Table = set<string>
  type Keys = map<KeyId, Row>

  datatype Mode = NoDomains | SelectedDomains | AllDomains

  datatype Policy = Policy(rate: nat, cidrs: string, status: string)

  /** The key row. */
  datatype Head = Head(kind: string, prefix: string, mode: Mode, secret: string, policy: Policy)

  /** The key row with its scope, domain and mailbox grants. */
  datatype Row = Row(head: Head, tables: seq<Table>)

  datatype CacheKey = CacheKey(kind: string, prefix: string)

  /** What a load has read so far; `times` records when each part was read. */
  datatype Record = Record(id: KeyId, head: Head, tables: seq<Table>, times: seq<real>)

  datatype Entry = Entry(expires: real, record: Record)

  datatype PolicyEntry = PolicyEntry(expires: real, policy: Policy)

  datatype Load =
    | Begun(key: CacheKey, start: real, epoch: nat)
    | Reading(key: CacheKey, start: real, epoch: nat, record: Record)

  /** A usage-policy load reads one row. */
  datatype PolicyLoad =
    | PolicyBegun(id: KeyId, epoch: nat)
    | PolicyRead(id: KeyId, epoch: nat, policy: Policy)

  datatype Service = Service(
    db: Keys,
    clock: real,
    epoch: nat,
    auth: Dict<CacheKey, Entry>,
    policies: Dict<KeyId, PolicyEntry>,
    loads: map<nat, Load>,
    policyLoads: map<nat, PolicyLoad>,
    pending: multiset<KeyId>           // mutations committed and not invalidated yet
  )

  datatype Action =
    | Create(id: KeyId, row: Row)
    | Commit(id: KeyId, row: Row) | Delete(id: KeyId)
    | CascadeDomains(id: KeyId, domains: Table)     // a domain is deleted elsewhere
    | Invalidate(id: KeyId)
    | LoadBegin(load: nat, key: CacheKey) | LoadHead(load: nat, id: KeyId) | LoadMiss(load: nat)
    | LoadTable(load: nat) | LoadStore(load: nat)
    | PolicyLoadBegin(load: nat, id: KeyId) | PolicyLoadRead(load: nat) | PolicyLoadStore(load: nat)
    | Serve(key: CacheKey) | ServePolicy(id: KeyId)
    | Tick(seconds: real)

  predicate Names(row: Row, key: CacheKey) {
    row.head.kind == key.kind && row.head.prefix == key.prefix
  }

  function TableOf(db: Keys, id: KeyId, k: nat): (t: Table) {
    if id in db && k < |db[id].tables| then db[id].tables[k] else {}
  }

  function ExpiredBy(d: Dict<KeyId, PolicyEntry>, now: real): (r: set<KeyId>) {
    set id | id in d.items && d.items[id].expires <= now
  }

  function KeysOf(d: Dict<CacheKey, Entry>, id: KeyId): (r: set<CacheKey>) {
    set key | key in d.items && d.items[key].record.id == id
  }

  ghost function Store(s: Service, l: nat): (r: Service)
    requires l in s.loads && s.loads[l].Reading?
  {
    var load := s.loads[l];
    var p := s.(loads := s.loads - {l});
    if load.epoch != s.epoch then p
    else p.(auth := StoredAuth(s.auth, load.key, load.record, load.start),
            policies := StoredPolicies(s.policies, load.record, load.start))
  }

  /** Selected-domain grants can change behind the service's back, so their keys are not cached. */
  ghost function StoredAuth(auth: Dict<CacheKey, Entry>, key: CacheKey, record: Record, start: real): (r: Dict<CacheKey, Entry>) {
    if record.head.mode.SelectedDomains? then auth
    else Shrink(PutLast(auth, key, Entry(start + TTL, record)), MAX_ENTRIES)
  }

  ghost function StoredPolicies(policies: Dict<KeyId, PolicyEntry>, record: Record, start: real): (r: Dict<KeyId, PolicyEntry>) {
    var live := RemoveAll(policies, ExpiredBy(policies, start));
    Shrink(PutLast(live, record.id, PolicyEntry(start + TTL, record.head.policy)), MAX_ENTRIES)
  }

  ghost function StorePolicy(s: Service, l: nat): (r: Service)
    requires l in s.policyLoads && s.policyLoads[l].PolicyRead?
  {
    var load := s.policyLoads[l];
    var p := s.(policyLoads := s.policyLoads - {l});
    if load.epoch != s.epoch then p
    else p.(policies := Shrink(PutLast(s.policies, load.id, PolicyEntry(s.clock + TTL, load.policy)), MAX_ENTRIES))
  }

  ghost predicate Enabled(s: Service, a: Action) {
    match a
    case Create(id, row) => id !in s.db && |row.tables| == TABLES
    case Commit(id, row) => id in s.db && |row.tables| == TABLES
    case Delete(id) => id in s.db
    case CascadeDomains(id, _) => id in s.db && s.db[id].head.mode.SelectedDomains? && |s.db[id].tables| == TABLES
    case Invalidate(id) => id in s.pending
    case LoadBegin(l, _) => l !in s.loads
    case LoadHead(l, id) => l in s.loads && s.loads[l].Begun? && id in s.db && Names(s.db[id], s.loads[l].key)
    case LoadMiss(l) => l in s.loads
    case LoadTable(l) => l in s.loads && s.loads[l].Reading? && |s.loads[l].record.tables| < TABLES
    case LoadStore(l) => l in s.loads && s.loads[l].Reading? && |s.loads[l].record.tables| == TABLES
    case PolicyLoadBegin(l, _) => l !in s.policyLoads
    case PolicyLoadRead(l) => l in s.policyLoads && s.policyLoads[l].PolicyBegun? && s.policyLoads[l].id in s.db
    case PolicyLoadStore(l) => l in s.policyLoads && s.policyLoads[l].PolicyRead?
    case Serve(_) => true
    case ServePolicy(_) => true
    case Tick(seconds) => seconds >= 0.0
  }

  ghost function Next(s: Service, a: Action): (r: Service)
    requires Enabled(s, a)
  {
    match a
    case Create(id, row) => s.(db := s.db[id := row])
    case Commit(id, row) => s.(db := s.db[id := row], pending := s.pending + multiset{id})
    case Delete(id) => s.(db := s.db - {id}, pending := s.pending + multiset{id})
    case CascadeDomains(id, domains) => s.(db := s.db[id := s.db[id].(tables := s.db[id].tables[1 := domains])])
    case Invalidate(id) =>
      s.(epoch := s.epoch + 1, auth := RemoveAll(s.auth, KeysOf(s.auth, id)), policies := Pop(s.policies, id),
         pending := s.pending - multiset{id})
    case LoadBegin(l, key) => s.(loads := s.loads[l := Begun(key, s.clock, s.epoch)])
    case LoadHead(l, id) =>
      var b := s.loads[l];
      s.(loads := s.loads[l := Reading(b.key, b.start, b.epoch, Record(id, s.db[id].head, [], [s.clock]))])
    case LoadMiss(l) => s.(loads := s.loads - {l})
    case LoadTable(l) =>
      var b := s.loads[l];
      var rec := b.record;
      s.(loads := s.loads[l := b.(record := rec.(tables := rec.tables + [TableOf(s.db, rec.id, |rec.tables|)],
                                                 times := rec.times + [s.clock]))])
    case LoadStore(l) => Store(s, l)
    case PolicyLoadBegin(l, id) => s.(policyLoads := s.policyLoads[l := PolicyBegun(id, s.epoch)])
    case PolicyLoadRead(l) =>
      var b := s.policyLoads[l];
      s.(policyLoads := s.policyLoads[l := PolicyRead(b.id, b.epoch, s.db[b.id].head.policy)])
    case PolicyLoadStore(l) => StorePolicy(s, l)
    case Serve(key) => s.(auth := Touch(s.auth, key, s.clock))
    case ServePolicy(id) => s.(policies := TouchPolicy(s.policies, id, s.clock))
    case Tick(seconds) => s.(clock := s.clock + seconds)
  }

  function Touch(d: Dict<CacheKey, Entry>, key: CacheKey, now: real): (r: Dict<CacheKey, Entry>) {
    Lookup(d, key, key in d.items && d.items[key].expires > now)
  }

  function TouchPolicy(d: Dict<KeyId, PolicyEntry>, id: KeyId, now: real): (r: Dict<KeyId, PolicyEntry>) {
    Lookup(d, id, id in d.items && d.items[id].expires > now)
  }

  /** What a lookup returns. */
  ghost predicate Served(s: Service, key: CacheKey, record: Record) {
    key in s.auth.items && s.auth.items[key].expires > s.clock && s.auth.items[key].record == record
  }

  ghost predicate PolicyServed(s: Service, id: KeyId, policy: Policy) {
    id in s.policies.items && s.policies.items[id].expires > s.clock && s.policies.items[id].policy == policy
  }

  function Initial(): (s: Service) {
    Service(map[], 0.0, 0, Empty(), Empty(), map[], map[], multiset{})
  }

  // ----- invariant -----

  /** The record agrees with the current row, as far as it has been read. */
  ghost predicate Current(db: Keys, rec: Record) {
    && rec.id in db && rec.head == db[rec.id].head
    && |rec.tables| <= |db[rec.id].tables|
    && (!rec.head.mode.SelectedDomains? ==> rec.tables == db[rec.id].tables[..|rec.tables|])
  }

  ghost predicate Trusted(db: Keys, pending: multiset<KeyId>, rec: Record) {
    rec.id in pending || Current(db, rec)
  }

  ghost predicate TrustedPolicy(db: Keys, pending: multiset<KeyId>, id: KeyId, policy: Policy) {
    id in pending || (id in db && db[id].head.policy == policy)
  }

  /** Every part was read at or after `start`. */
  ghost predicate ReadSince(rec: Record, start: real) {
    forall i :: 0 <= i < |rec.times| ==> start <= rec.times[i]
  }

  ghost predicate LoadOk(db: Keys, pending: multiset<KeyId>, clock: real, epoch: nat, load: Load) {
    && load.start <= clock && load.epoch <= epoch
    && (load.Reading? ==>
          && ReadSince(load.record, load.start)
          && |load.record.times| == |load.record.tables| + 1 <= TABLES + 1
          && load.record.head.kind == load.key.kind && load.record.head.prefix == load.key.prefix
          && (load.epoch == epoch ==> Trusted(db, pending, load.record)))
  }

  ghost predicate PolicyLoadOk(db: Keys, pending: multiset<KeyId>, epoch: nat, p: PolicyLoad) {
    p.epoch <= epoch && (p.PolicyRead? && p.epoch == epoch ==> TrustedPolicy(db, pending, p.id, p.policy))
  }

  ghost predicate EntryOk(db: Keys, pending: multiset<KeyId>, key: CacheKey, e: Entry) {
    && Trusted(db, pending, e.record)
    && ReadSince(e.record, e.expires - TTL)
    && |e.record.tables| == TABLES && |e.record.times| == TABLES + 1
    && !e.record.head.mode.SelectedDomains?
    && e.record.head.kind == key.kind && e.record.head.prefix == key.prefix
  }

  ghost predicate EntriesOk(db: Keys, pending: multiset<KeyId>, items: map<CacheKey, Entry>) {
    forall key :: key in items ==> EntryOk(db, pending, key, items[key])
  }

  ghost predicate PoliciesOk(db: Keys, pending: multiset<KeyId>, items: map<KeyId, PolicyEntry>) {
    forall id :: id in items ==> TrustedPolicy(db, pending, id, items[id].policy)
  }

  ghost predicate LoadsOk(db: Keys, pending: multiset<KeyId>, clock: real, epoch: nat, loads: map<nat, Load>) {
    forall l :: l in loads ==> LoadOk(db, pending, clock, epoch, loads[l])
  }

  ghost predicate PolicyLoadsOk(db: Keys, pending: multiset<KeyId>, epoch: nat, loads: map<nat, PolicyLoad>) {
    forall l :: l in loads ==> PolicyLoadOk(db, pending, epoch, loads[l])
  }

  ghost predicate Bounded<K(!new), V>(d: Dict<K, V>) {
    Valid(d) && |d.items| <= MAX_ENTRIES
  }

  ghost predicate WholeRows(db: Keys) {
    forall id :: id in db ==> |db[id].tables| == TABLES
  }

  ghost predicate Known(s: Service) {
    && EntriesOk(s.db, s.pending, s.auth.items)
    && PoliciesOk(s.db, s.pending, s.policies.items)
    && LoadsOk(s.db, s.pending, s.clock, s.epoch, s.loads)
    && PolicyLoadsOk(s.db, s.pending, s.epoch, s.policyLoads)
  }

  /** Both caches are well-formed and within their bound. */
  ghost predicate Shaped(s: Service) {
    Bounded(s.auth) && Bounded(s.policies)
  }

  ghost predicate Honest(s: Service) {
    WholeRows(s.db) && Known(s)
  }

  ghost predicate ServiceInv(s: Service) {
    Shaped(s) && Honest(s)
  }

  // ----- preservation -----

  lemma PopBounded<K(!new), V>(d: Dict<K, V>, k: K)
    requires Bounded(d)
    ensures Bounded(Pop(d, k))
  {
    PopValid(d, k);
    SubsetSize(Pop(d, k).items.Keys, d.items.Keys);
  }

  lemma MoveToEndBounded<K(!new), V>(d: Dict<K, V>, k: K)
    requires Bounded(d) && k in d.items
    ensures Bounded(MoveToEnd(d, k))
  {
    PutLastValid(d, k, d.items[k]);
    assert d.items[k := d.items[k]] == d.items;
  }

  lemma PutBounded<K(!new), V>(d: Dict<K, V>, k: K, v: V)
    requires Bounded(d)
    ensures Bounded(Shrink(PutLast(d, k, v), MAX_ENTRIES))
  {
    PutLastValid(d, k, v);
    ShrinkValid(PutLast(d, k, v), MAX_ENTRIES);
  }

  lemma RemoveBounded<K(!new), V>(d: Dict<K, V>, gone: set<K>)
    requires Bounded(d)
    ensures Bounded(RemoveAll(d, gone))
  {
    RemoveAllValid(d, gone);
  }

  lemma ReplaceBounded<K(!new), V>(d: Dict<K, V>, gone: set<K>, k: K, v: V)
    requires Bounded(d)
    ensures Bounded(Shrink(PutLast(RemoveAll(d, gone), k, v), MAX_ENTRIES))
  {
    RemoveAllValid(d, gone);
    PutBounded(RemoveAll(d, gone), k, v);
  }

  lemma TouchBounded<K(!new), V>(d: Dict<K, V>, k: K)
    requires Bounded(d)
    ensures Bounded(Pop(d, k)) && (k in d.items ==> Bounded(MoveToEnd(d, k)))
  {
    PopBounded(d, k);
    if k in d.items { MoveToEndBounded(d, k); }
  }

  lemma StepAuth(s: Service, a: Action)
    requires Bounded(s.auth) && Enabled(s, a)
    ensures Bounded(Next(s, a).auth)
  {
    hide Bounded, Shrink, RemoveAll, PutLast, Pop, MoveToEnd;
    match a
    case Invalidate(id) => RemoveBounded(s.auth, KeysOf(s.auth, id));
    case LoadStore(l) => PutBounded(s.auth, s.loads[l].key, Entry(s.loads[l].start + TTL, s.loads[l].record));
    case Serve(key) =>
      TouchBounded(s.auth, key);
    case _ => assert Next(s, a).auth == s.auth;
  }

  lemma StorePoliciesBounded(s: Service, l: nat)
    requires Bounded(s.policies) && l in s.loads && s.loads[l].Reading?
    ensures Bounded(Store(s, l).policies)
  {
    hide Bounded, Shrink, RemoveAll, PutLast;
    var load := s.loads[l];
    ReplaceBounded(s.policies, ExpiredBy(s.policies, load.start), load.record.id,
                   PolicyEntry(load.start + TTL, load.record.head.policy));
  }

  lemma StepPolicies(s: Service, a: Action)
    requires Bounded(s.policies) && Enabled(s, a)
    ensures Bounded(Next(s, a).policies)
  {
    hide Bounded, Shrink, RemoveAll, PutLast, Pop, MoveToEnd;
    match a
    case Invalidate(id) => PopBounded(s.policies, id);
    case LoadStore(l) => StorePoliciesBounded(s, l);
    case PolicyLoadStore(l) =>
      PutBounded(s.policies, s.policyLoads[l].id, PolicyEntry(s.clock + TTL, s.policyLoads[l].policy));
    case ServePolicy(id) =>
      TouchBounded(s.policies, id);
    case _ => assert Next(s, a).policies == s.policies;
  }

  /** If every record that was trusted stays trusted, everything the service knows stays right. */
  lemma TrustCarries(s: Service, db: Keys, pending: multiset<KeyId>)
    requires Known(s)
    requires forall rec :: Trusted(s.db, s.pending, rec) ==> Trusted(db, pending, rec)
    requires forall id, p :: TrustedPolicy(s.db, s.pending, id, p) ==> TrustedPolicy(db, pending, id, p)
    ensures Known(s.(db := db, pending := pending))
  {
  }

  /** A commit makes its own key pending, so records of that key are excused and the others unaffected. */
  lemma MutationHonest(s: Service, db: Keys, id: KeyId)
    requires Honest(s) && WholeRows(db)
    requires forall k :: k != id ==> (k in s.db <==> k in db) && (k in s.db ==> s.db[k] == db[k])
    ensures Honest(s.(db := db, pending := s.pending + multiset{id}))
  {
    TrustCarries(s, db, s.pending + multiset{id});
  }

  lemma CreateHonest(s: Service, id: KeyId, row: Row)
    requires Honest(s) && Enabled(s, Create(id, row))
    ensures Honest(Next(s, Create(id, row)))
  {
    TrustCarries(s, s.db[id := row], s.pending);
  }

  /** A record of a selected-domains key vouches for its head only, which a cascade leaves alone. */
  lemma CascadeHonest(s: Service, id: KeyId, domains: Table)
    requires Honest(s) && Enabled(s, CascadeDomains(id, domains))
    ensures Honest(Next(s, CascadeDomains(id, domains)))
  {
    TrustCarries(s, s.db[id := s.db[id].(tables := s.db[id].tables[1 := domains])], s.pending);
  }

  /** Invalidation drops what it excuses no longer, and no load begun before it can store. */
  lemma InvalidateHonest(s: Service, id: KeyId)
    requires Honest(s) && id in s.pending
    ensures Honest(Next(s, Invalidate(id)))
  {
    var r := Next(s, Invalidate(id));
    assert forall k :: k in s.pending && k != id ==> k in r.pending;
    forall key | key in r.auth.items ensures EntryOk(r.db, r.pending, key, r.auth.items[key]) {
      assert EntryOk(s.db, s.pending, key, s.auth.items[key]);
    }
    forall l | l in r.loads ensures LoadOk(r.db, r.pending, r.clock, r.epoch, r.loads[l]) {
      assert LoadOk(s.db, s.pending, s.clock, s.epoch, s.loads[l]);
    }
  }

  lemma LoadTableHonest(s: Service, l: nat)
    requires Honest(s) && Enabled(s, LoadTable(l))
    ensures Honest(Next(s, LoadTable(l)))
  {
    var b := s.loads[l];
    assert LoadOk(s.db, s.pending, s.clock, s.epoch, b);
    var n, r := |b.record.tables|, Next(s, LoadTable(l));
    if Current(s.db, b.record) && !b.record.head.mode.SelectedDomains? {
      var ts := s.db[b.record.id].tables;
      assert ts[..n] + [ts[n]] == ts[..n + 1];
    }
    assert LoadOk(s.db, s.pending, s.clock, s.epoch, r.loads[l]);
  }

  lemma LoadHeadHonest(s: Service, l: nat, id: KeyId)
    requires Honest(s) && Enabled(s, LoadHead(l, id))
    ensures Honest(Next(s, LoadHead(l, id)))
  {
    var r := Next(s, LoadHead(l, id));
    assert LoadOk(s.db, s.pending, s.clock, s.epoch, s.loads[l]);
    assert LoadOk(s.db, s.pending, s.clock, s.epoch, r.loads[l]);
  }

  lemma PutEntries(db: Keys, pending: multiset<KeyId>, d: Dict<CacheKey, Entry>, key: CacheKey, e: Entry)
    requires EntriesOk(db, pending, d.items) && EntryOk(db, pending, key, e)
    ensures EntriesOk(db, pending, Shrink(PutLast(d, key, e), MAX_ENTRIES).items)
  {
    ShrinkItems(PutLast(d, key, e), MAX_ENTRIES);
  }

  lemma PutPolicies(db: Keys, pending: multiset<KeyId>, d: Dict<KeyId, PolicyEntry>, id: KeyId, e: PolicyEntry)
    requires PoliciesOk(db, pending, d.items) && TrustedPolicy(db, pending, id, e.policy)
    ensures PoliciesOk(db, pending, Shrink(PutLast(d, id, e), MAX_ENTRIES).items)
  {
    ShrinkItems(PutLast(d, id, e), MAX_ENTRIES);
  }

  lemma StoreHonest(s: Service, l: nat)
    requires Honest(s) && Enabled(s, LoadStore(l))
    ensures Honest(Store(s, l))
  {
    hide Shrink, PutLast;
    var load := s.loads[l];
    assert LoadOk(s.db, s.pending, s.clock, s.epoch, load);
    if load.epoch == s.epoch {
      var rec, expires := load.record, load.start + TTL;
      PutPolicies(s.db, s.pending, RemoveAll(s.policies, ExpiredBy(s.policies, load.start)), rec.id, PolicyEntry(expires, rec.head.policy));
      if !rec.head.mode.SelectedDomains? {
        PutEntries(s.db, s.pending, s.auth, load.key, Entry(expires, rec));
      }
    }
  }

  lemma StorePolicyHonest(s: Service, l: nat)
    requires Honest(s) && Enabled(s, PolicyLoadStore(l))
    ensures Honest(StorePolicy(s, l))
  {
    var load := s.policyLoads[l];
    assert PolicyLoadOk(s.db, s.pending, s.epoch, load);
    if load.epoch == s.epoch {
      PutPolicies(s.db, s.pending, s.policies, load.id, PolicyEntry(s.clock + TTL, load.policy));
    }
  }

  lemma StepHonest(s: Service, a: Action)
    requires Honest(s) && Enabled(s, a)
    ensures Honest(Next(s, a))
  {
    match a
    case Create(id, row) => CreateHonest(s, id, row);
    case Commit(id, row) => MutationHonest(s, s.db[id := row], id);
    case Delete(id) => MutationHonest(s, s.db - {id}, id);
    case CascadeDomains(id, d) => CascadeHonest(s, id, d);
    case Invalidate(id) => InvalidateHonest(s, id);
    case LoadHead(l, id) => LoadHeadHonest(s, l, id);
    case LoadTable(l) => LoadTableHonest(s, l);
    case LoadStore(l) => StoreHonest(s, l);
    case PolicyLoadStore(l) => StorePolicyHonest(s, l);
    case _ =>
  }

  // ----- runs -----

  ghost predicate Reaches(s: Service, acts: seq<Action>, r: Service)
    decreases |acts|
  {
    if acts == [] then r == s
    else Enabled(s, acts[0]) && Reaches(Next(s, acts[0]), acts[1..], r)
  }

  lemma {:induction false} RunInv(s: Service, acts: seq<Action>, r: Service)
    requires ServiceInv(s) && Reaches(s, acts, r)
    ensures ServiceInv(r)
    decreases |acts|
  {
    if acts != [] {
      StepInv(s, acts[0]);
      hide ServiceInv, Next, Enabled;
      RunInv(Next(s, acts[0]), acts[1..], r);
    }
  }

  /**
   Coherence: in every reachable state a cached record differs from the key's current row only
   while some mutation of that very key is between commit and invalidation.
   */
  lemma CacheCoherence(acts: seq<Action>, s: Service)
    requires Reaches(Initial(), acts, s)
    ensures forall key :: key in s.auth.items && s.auth.items[key].record.id !in s.pending ==>
              var rec := s.auth.items[key].record;
              rec.id in s.db && s.db[rec.id] == Row(rec.head, rec.tables) && Names(s.db[rec.id], key)
    ensures forall id :: id in s.policies.items && id !in s.pending ==>
              id in s.db && s.policies.items[id].policy == s.db[id].head.policy
    ensures |s.auth.items| <= 4096 && |s.policies.items| <= 4096
  {
    RunInv(Initial(), acts, s);
    forall key | key in s.auth.items && s.auth.items[key].record.id !in s.pending
      ensures var rec := s.auth.items[key].record;
              rec.id in s.db && s.db[rec.id] == Row(rec.head, rec.tables) && Names(s.db[rec.id], key)
    {
      var rec := s.auth.items[key].record;
      assert EntryOk(s.db, s.pending, key, s.auth.items[key]);
      assert s.db[rec.id].tables[..TABLES] == s.db[rec.id].tables;
    }
  }

  /** Freshness in all runs: every part of a record the cache serves was read less than 2 seconds ago. */
  lemma ServedFresh(acts: seq<Action>, s: Service, key: CacheKey, record: Record)
    requires Reaches(Initial(), acts, s) && Served(s, key, record)
    ensures |record.times| == 4
    ensures forall i :: 0 <= i < |record.times| ==> record.times[i] > s.clock - 2.0
  {
    RunInv(Initial(), acts, s);
    assert EntryOk(s.db, s.pending, key, s.auth.items[key]);
  }

  // ----- what is cached stays cached -----

  /** A finished load caches what it read for two seconds from its start, unless an invalidation struck meanwhile. */
  lemma StoreIs(s: Service, l: nat)
    requires Bounded(s.auth) && Enabled(s, LoadStore(l))
    ensures var load, r := s.loads[l], Next(s, LoadStore(l));
            && r == s.(loads := s.loads - {l}, auth := r.auth, policies := r.policies)
            && (load.epoch != s.epoch || load.record.head.mode.SelectedDomains? ==> r.auth == s.auth)
            && (load.epoch == s.epoch && !load.record.head.mode.SelectedDomains? ==>
                  && Youngest(r.auth, load.key, Entry(load.start + 2.0, load.record))
                  && (s.clock < load.start + 2.0 ==> Served(r, load.key, load.record)))
  {
    hide Shrink, PutLast, RemoveAll, ExpiredBy;
    var load := s.loads[l];
    PutIsYoungest(s.auth, load.key, Entry(load.start + TTL, load.record));
    hide Bounded, AmongLast;
  }

  /** It caches the key's usage policy for as long, and drops the policies that had expired when it began. */
  lemma StoreIsPolicy(s: Service, l: nat)
    requires Bounded(s.policies) && Enabled(s, LoadStore(l))
    ensures var load, r := s.loads[l], Next(s, LoadStore(l)).policies;
            && (load.epoch != s.epoch ==> r == s.policies)
            && (load.epoch == s.epoch ==>
                  && Youngest(r, load.record.id, PolicyEntry(load.start + 2.0, load.record.head.policy))
                  && (forall id :: id in r.items && id != load.record.id ==> r.items[id].expires > load.start))
  {
    hide Shrink, PutLast, Bounded, AmongLast;
    var load := s.loads[l];
    var gone := ExpiredBy(s.policies, load.start);
    RemoveBounded(s.policies, gone);
    assert forall id :: id in RemoveAll(s.policies, gone).items ==> RemoveAll(s.policies, gone).items[id].expires > load.start;
    hide RemoveAll, ExpiredBy;
    PutIsYoungest(RemoveAll(s.policies, gone), load.record.id, PolicyEntry(load.start + TTL, load.record.head.policy));
  }

  /** The entry is stored and the last to be dropped. */
  ghost predicate Youngest<K(!new), V(!new)>(d: Dict<K, V>, k: K, v: V) {
    k in d.items && d.items[k] == v && AmongLast(d.order, k, 1)
  }

  lemma PutIsYoungest<K(!new), V(!new)>(d: Dict<K, V>, k: K, v: V)
    requires Bounded(d)
    ensures Youngest(Shrink(PutLast(d, k, v), MAX_ENTRIES), k, v)
    ensures var r := Shrink(PutLast(d, k, v), MAX_ENTRIES);
            forall a :: a in r.items && a != k ==> a in d.items && r.items[a] == d.items[a]
  {
    var p := PutLast(d, k, v);
    PutLastValid(d, k, v);
    assert p.order[|p.order| - 1] == k;
    ShrinkKeeps(p, MAX_ENTRIES, k, 1);
    ShrinkItems(p, MAX_ENTRIES);
    hide Shrink, Valid;
  }

  lemma PolicyStoreIs(s: Service, l: nat)
    requires Bounded(s.policies) && Enabled(s, PolicyLoadStore(l))
    ensures var load, r := s.policyLoads[l], Next(s, PolicyLoadStore(l));
            && r == s.(policyLoads := s.policyLoads - {l}, policies := r.policies)
            && (load.epoch != s.epoch ==> r.policies == s.policies)
            && (load.epoch == s.epoch ==>
                  && Youngest(r.policies, load.id, PolicyEntry(s.clock + 2.0, load.policy))
                  && PolicyServed(r, load.id, load.policy))
  {
    hide Shrink, PutLast;
    PutIsYoungest(s.policies, s.policyLoads[l].id, PolicyEntry(s.clock + TTL, s.policyLoads[l].policy));
    hide Bounded, AmongLast;
  }

  /** A lookup that hits changes no entry and makes its record the last to be dropped; a dead entry is dropped alone. */
  lemma ServeIs(s: Service, key: CacheKey)
    requires Shaped(s)
    ensures var r := Next(s, Serve(key));
            && r == s.(auth := r.auth)
            && (key in s.auth.items && s.auth.items[key].expires > s.clock ==>
                  r.auth.items == s.auth.items && AmongLast(r.auth.order, key, 1))
            && (key in s.auth.items && s.auth.items[key].expires <= s.clock ==>
                  r.auth.items == s.auth.items - {key})
            && (key !in s.auth.items ==> r.auth == s.auth)
            && SameOthers(s.auth.order, r.auth.order, key)
  {
    LookupIs(s.auth, key, key in s.auth.items && s.auth.items[key].expires > s.clock);
    hide Lookup, SameOthers;
  }

  lemma ServePolicyIs(s: Service, id: KeyId)
    requires Shaped(s)
    ensures var r := Next(s, ServePolicy(id));
            && r == s.(policies := r.policies)
            && (id in s.policies.items && s.policies.items[id].expires > s.clock ==>
                  r.policies.items == s.policies.items && AmongLast(r.policies.order, id, 1))
            && (id in s.policies.items && s.policies.items[id].expires <= s.clock ==>
                  r.policies.items == s.policies.items - {id})
            && (id !in s.policies.items ==> r.policies == s.policies)
            && SameOthers(s.policies.order, r.policies.order, id)
  {
    LookupIs(s.policies, id, id in s.policies.items && s.policies.items[id].expires > s.clock);
    hide Lookup, SameOthers;
  }

  /** How often the run uses or fills the authentication cache. */
  ghost function Uses(acts: seq<Action>): (n: nat) {
    if acts == [] then 0 else (if acts[0].LoadStore? || acts[0].Serve? then 1 else 0) + Uses(acts[1..])
  }

  /** The run neither invalidates the key nor stores another record under the same name. */
  ghost predicate Spares(s: Service, acts: seq<Action>, key: CacheKey, id: KeyId)
    decreases |acts|
  {
    acts == [] ||
    (var a := acts[0];
     && Enabled(s, a)
     && !(a.Invalidate? && a.id == id) && !(a.LoadStore? && s.loads[a.load].key == key)
     && Spares(Next(s, a), acts[1..], key, id))
  }

  /** The entry, and at most how many places from the end it stands. */
  ghost predicate Keeps<K(!new), V(!new)>(d: Dict<K, V>, k: K, v: V, n: int) {
    Bounded(d) && k in d.items && d.items[k] == v && AmongLast(d.order, k, n)
  }

  lemma KeepsEntry<K(!new), V(!new)>(d: Dict<K, V>, k: K, v: V, n: int)
    requires Keeps(d, k, v, n)
    ensures k in d.items && d.items[k] == v
  {
  }

  lemma KeepsPut<K(!new), V(!new)>(d: Dict<K, V>, x: K, y: V, k: K, v: V, n: int)
    requires Keeps(d, k, v, n) && k != x && n < MAX_ENTRIES
    ensures Keeps(Shrink(PutLast(d, x, y), MAX_ENTRIES), k, v, n + 1)
  {
    PutLastValid(d, x, y);
    PutAmongLast(d.order, x, k, n);
    ShrinkKeeps(PutLast(d, x, y), MAX_ENTRIES, k, n + 1);
    PutBounded(d, x, y);
    hide Shrink, AmongLast, Bounded, Valid;
  }

  lemma KeepsRemove<K(!new), V(!new)>(d: Dict<K, V>, gone: set<K>, k: K, v: V, n: int)
    requires Keeps(d, k, v, n) && k !in gone
    ensures Keeps(RemoveAll(d, gone), k, v, n)
  {
    RemoveBounded(d, gone);
    MinusAmongLast(d.order, gone, k, n);
    hide AmongLast, Bounded;
  }

  lemma KeepsMore<K(!new), V(!new)>(d: Dict<K, V>, k: K, v: V, n: int, m: int)
    requires Keeps(d, k, v, n) && n <= m
    ensures Keeps(d, k, v, m)
  {
  }

  lemma KeepsLookup<K(!new), V(!new)>(d: Dict<K, V>, x: K, live: bool, k: K, v: V, n: nat)
    requires Keeps(d, k, v, n) && (x == k ==> live)
    ensures Keeps(Lookup(d, x, live), k, v, n + 1)
  {
    TouchBounded(d, x);
    if x == k {
      var w := Without(d.order, x) + [x];
      assert w[|w| - 1] == k;
    } else if x in d.items && live {
      PutAmongLast(d.order, x, k, n);
      hide AmongLast, Bounded;
    } else {
      MinusAmongLast(d.order, {x}, k, n);
      KeepsMore(d, k, v, n, n + 1);
    }
  }

  lemma KeepsStep(s: Service, a: Action, key: CacheKey, e: Entry, n: nat)
    requires Keeps(s.auth, key, e, n) && Enabled(s, a) && s.clock < e.expires && n < MAX_ENTRIES
    requires key in s.auth.items && s.auth.items[key] == e
    requires !(a.Invalidate? && a.id == e.record.id) && !(a.LoadStore? && s.loads[a.load].key == key)
    ensures Keeps(Next(s, a).auth, key, e, n + if a.LoadStore? || a.Serve? then 1 else 0)
  {
    hide Keeps, Shrink, PutLast, RemoveAll, Lookup;
    match a {
      case LoadStore(l) =>
        KeepsMore(s.auth, key, e, n, n + 1);
        KeepsPut(s.auth, s.loads[l].key, Entry(s.loads[l].start + TTL, s.loads[l].record), key, e, n);
      case Serve(k) => KeepsLookup(s.auth, k, k in s.auth.items && s.auth.items[k].expires > s.clock, key, e, n);
      case Invalidate(id) => KeepsRemove(s.auth, KeysOf(s.auth, id), key, e, n);
      case _ => assert Next(s, a).auth == s.auth;
    }
  }

  lemma {:induction false} ClockRuns(s: Service, acts: seq<Action>, r: Service)
    requires Reaches(s, acts, r)
    ensures s.clock <= r.clock
    decreases |acts|
  {
    if acts != [] { ClockRuns(Next(s, acts[0]), acts[1..], r); }
  }

  lemma {:induction false} KeepsRun(s: Service, acts: seq<Action>, r: Service, key: CacheKey, e: Entry, n: nat)
    requires Keeps(s.auth, key, e, n) && Reaches(s, acts, r) && Spares(s, acts, key, e.record.id)
    requires r.clock < e.expires && n + Uses(acts) <= MAX_ENTRIES
    ensures Keeps(r.auth, key, e, n + Uses(acts))
    decreases |acts|
  {
    hide Keeps, Next, Enabled;
    if acts != [] {
      ClockRuns(s, acts, r);
      var a, m := acts[0], n + if acts[0].LoadStore? || acts[0].Serve? then 1 else 0;
      KeepsEntry(s.auth, key, e, n);
      if n < MAX_ENTRIES { KeepsStep(s, a, key, e, n); } else { KeepsIdle(s, a, key, e, n); }
      KeepsRun(Next(s, a), acts[1..], r, key, e, m);
    }
  }

  lemma KeepsIdle(s: Service, a: Action, key: CacheKey, e: Entry, n: nat)
    requires Keeps(s.auth, key, e, n) && Enabled(s, a) && !a.LoadStore? && !a.Serve? && !(a.Invalidate? && a.id == e.record.id)
    ensures Keeps(Next(s, a).auth, key, e, n)
  {
    var gone := if a.Invalidate? then KeysOf(s.auth, a.id) else {};
    assert key !in gone;
    hide Keeps, RemoveAll;
    if a.Invalidate? { KeepsRemove(s.auth, gone, key, e, n); } else { assert Next(s, a).auth == s.auth; }
  }

  lemma ReachableInv(acts: seq<Action>, s: Service)
    requires Reaches(Initial(), acts, s)
    ensures ServiceInv(s)
  {
    RunInv(Initial(), acts, s);
    hide Reaches;
  }

  /**
   A cached record is served until it expires, its key is invalidated, a record stored under
   the same name takes its place, or the cache has been used so often since that 4096 other
   entries may be younger.
   */
  lemma StaysServed(before: seq<Action>, s: Service, acts: seq<Action>, r: Service, key: CacheKey, n: nat)
    requires Reaches(Initial(), before, s) && Reaches(s, acts, r)
    requires key in s.auth.items && AmongLast(s.auth.order, key, n) && n + Uses(acts) <= 4096
    requires Spares(s, acts, key, s.auth.items[key].record.id) && r.clock < s.auth.items[key].expires
    ensures Served(r, key, s.auth.items[key].record)
    ensures AmongLast(r.auth.order, key, n + Uses(acts))
  {
    hide Reaches, Spares, Uses, AmongLast;
    ReachableInv(before, s);
    hide Honest;
    KeepsRun(s, acts, r, key, s.auth.items[key], n);
  }

  ghost function PolicyUses(acts: seq<Action>): (n: nat) {
    if acts == [] then 0
    else (if acts[0].LoadStore? || acts[0].PolicyLoadStore? || acts[0].ServePolicy? then 1 else 0) + PolicyUses(acts[1..])
  }

  /** The run neither invalidates the key nor stores its policy again. */
  ghost predicate SparesPolicy(s: Service, acts: seq<Action>, id: KeyId)
    decreases |acts|
  {
    acts == [] ||
    (var a := acts[0];
     && Enabled(s, a)
     && !(a.Invalidate? && a.id == id)
     && !(a.LoadStore? && s.loads[a.load].record.id == id) && !(a.PolicyLoadStore? && s.policyLoads[a.load].id == id)
     && SparesPolicy(Next(s, a), acts[1..], id))
  }

  lemma StoreKeepsPolicy(s: Service, l: nat, id: KeyId, e: PolicyEntry, n: nat)
    requires Keeps(s.policies, id, e, n) && Enabled(s, LoadStore(l)) && s.clock < e.expires && n < MAX_ENTRIES
    requires s.loads[l].start <= s.clock && s.loads[l].record.id != id
    ensures Keeps(Next(s, LoadStore(l)).policies, id, e, n + 1)
  {
    hide Keeps, Shrink, PutLast, RemoveAll;
    KeepsEntry(s.policies, id, e, n);
    var load := s.loads[l];
    var gone := ExpiredBy(s.policies, load.start);
    assert id !in gone;
    hide ExpiredBy;
    KeepsMore(s.policies, id, e, n, n + 1);
    KeepsRemove(s.policies, gone, id, e, n);
    KeepsPut(RemoveAll(s.policies, gone), load.record.id, PolicyEntry(load.start + TTL, load.record.head.policy), id, e, n);
  }

  lemma PolicyKeepsStep(s: Service, a: Action, id: KeyId, e: PolicyEntry, n: nat)
    requires Keeps(s.policies, id, e, n) && Enabled(s, a) && s.clock < e.expires && n < MAX_ENTRIES
    requires id in s.policies.items && s.policies.items[id] == e
    requires a.LoadStore? ==> s.loads[a.load].start <= s.clock && s.loads[a.load].record.id != id
    requires !(a.Invalidate? && a.id == id) && !(a.PolicyLoadStore? && s.policyLoads[a.load].id == id)
    ensures Keeps(Next(s, a).policies, id, e, n + if a.LoadStore? || a.PolicyLoadStore? || a.ServePolicy? then 1 else 0)
  {
    hide Keeps, Shrink, PutLast, RemoveAll, Lookup, ExpiredBy;
    match a {
      case LoadStore(l) => StoreKeepsPolicy(s, l, id, e, n);
      case PolicyLoadStore(l) =>
        KeepsMore(s.policies, id, e, n, n + 1);
        KeepsPut(s.policies, s.policyLoads[l].id, PolicyEntry(s.clock + TTL, s.policyLoads[l].policy), id, e, n);
      case ServePolicy(k) =>
        KeepsLookup(s.policies, k, k in s.policies.items && s.policies.items[k].expires > s.clock, id, e, n);
      case Invalidate(k) => KeepsRemove(s.policies, {k}, id, e, n); PopIsRemove(s.policies, k);
      case _ => assert Next(s, a).policies == s.policies;
    }
  }

  lemma PopIsRemove<K(!new), V>(d: Dict<K, V>, k: K)
    ensures Pop(d, k) == RemoveAll(d, {k})
  {
  }

  lemma PolicyKeepsIdle(s: Service, a: Action, id: KeyId, e: PolicyEntry, n: nat)
    requires Keeps(s.policies, id, e, n) && Enabled(s, a) && !(a.Invalidate? && a.id == id)
    requires !a.LoadStore? && !a.PolicyLoadStore? && !a.ServePolicy?
    ensures Keeps(Next(s, a).policies, id, e, n)
  {
    hide Keeps, RemoveAll;
    if a.Invalidate? {
      KeepsRemove(s.policies, {a.id}, id, e, n);
      PopIsRemove(s.policies, a.id);
    } else {
      assert Next(s, a).policies == s.policies;
    }
  }

  lemma StepInv(s: Service, a: Action)
    requires ServiceInv(s) && Enabled(s, a)
    ensures ServiceInv(Next(s, a))
  {
    hide Honest, Bounded;
    StepAuth(s, a);
    StepPolicies(s, a);
    StepHonest(s, a);
  }

  lemma LoadBegan(s: Service, l: nat)
    requires ServiceInv(s) && Enabled(s, LoadStore(l))
    ensures l in s.loads && s.loads[l].start <= s.clock
  {
    assert LoadOk(s.db, s.pending, s.clock, s.epoch, s.loads[l]);
  }

  lemma {:induction false} PolicyKeepsRun(s: Service, acts: seq<Action>, r: Service, id: KeyId, e: PolicyEntry, n: nat)
    requires ServiceInv(s) && Keeps(s.policies, id, e, n) && Reaches(s, acts, r) && SparesPolicy(s, acts, id)
    requires r.clock < e.expires && n + PolicyUses(acts) <= MAX_ENTRIES
    ensures Keeps(r.policies, id, e, n + PolicyUses(acts))
    decreases |acts|
  {
    hide ServiceInv, Keeps, Next, Enabled;
    if acts != [] {
      ClockRuns(s, acts, r);
      var a := acts[0];
      var m := n + if a.LoadStore? || a.PolicyLoadStore? || a.ServePolicy? then 1 else 0;
      StepInv(s, a);
      if a.LoadStore? { LoadBegan(s, a.load); }
      KeepsEntry(s.policies, id, e, n);
      if n < MAX_ENTRIES { PolicyKeepsStep(s, a, id, e, n); } else { PolicyKeepsIdle(s, a, id, e, n); }
      PolicyKeepsRun(Next(s, a), acts[1..], r, id, e, m);
    }
  }

  /** A cached usage policy is served until it expires, is invalidated or stored anew, or 4096 others may be younger. */
  lemma PolicyStaysServed(before: seq<Action>, s: Service, acts: seq<Action>, r: Service, id: KeyId, n: nat)
    requires Reaches(Initial(), before, s) && Reaches(s, acts, r)
    requires id in s.policies.items && AmongLast(s.policies.order, id, n) && n + PolicyUses(acts) <= 4096
    requires SparesPolicy(s, acts, id) && r.clock < s.policies.items[id].expires
    ensures PolicyServed(r, id, s.policies.items[id].policy)
    ensures AmongLast(r.policies.order, id, n + PolicyUses(acts))
  {
    hide Reaches, SparesPolicy, PolicyUses, AmongLast;
    ReachableInv(before, s);
    hide Honest;
    PolicyKeepsRun(s, acts, r, id, s.policies.items[id], n);
  }

  // ----- loads and mutations take effect -----

  lemma StepRun(s: Service, a: Action, more: seq<Action>, r: Service)
    requires Enabled(s, a) && Reaches(Next(s, a), more, r)
    ensures Reaches(s, [a] + more, r)
  {
    assert ([a] + more)[1..] == more;
    hide Enabled, Next;
  }

  lemma EndRun(s: Service)
    ensures Reaches(s, [], s)
  {
  }

  /** `x` is `s` with a load of the key's row that has read its head and `k` tables. */
  ghost predicate InLoad(s: Service, x: Service, l: nat, key: CacheKey, id: KeyId, k: nat) {
    && x == s.(loads := x.loads) && l in x.loads && x.loads - {l} == s.loads
    && id in s.db && k <= |s.db[id].tables|
    && var b := x.loads[l];
       b.Reading? && b == Reading(key, s.clock, s.epoch, Record(id, s.db[id].head, s.db[id].tables[..k], b.record.times))
  }

  lemma LoadBegins(s: Service, l: nat, key: CacheKey, id: KeyId)
    requires l !in s.loads && id in s.db && s.db[id].head.kind == key.kind && s.db[id].head.prefix == key.prefix
    ensures Enabled(s, LoadBegin(l, key)) && Enabled(Next(s, LoadBegin(l, key)), LoadHead(l, id))
    ensures InLoad(s, Next(Next(s, LoadBegin(l, key)), LoadHead(l, id)), l, key, id, 0)
  {
    hide Store, StorePolicy;
  }

  lemma TableRead(s: Service, x: Service, l: nat, key: CacheKey, id: KeyId, k: nat)
    requires InLoad(s, x, l, key, id, k) && k < 3 == |s.db[id].tables|
    ensures Enabled(x, LoadTable(l)) && InLoad(s, Next(x, LoadTable(l)), l, key, id, k + 1)
  {
    var t := s.db[id].tables;
    assert t[..k] + [t[k]] == t[..k + 1];
    hide Store, StorePolicy;
  }

  /** An undisturbed load reads the row as it is and, unless the key's grants are per domain, serves it from then on. */
  lemma LoadFills(s: Service, l: nat, key: CacheKey, id: KeyId) returns (acts: seq<Action>, r: Service, rec: Record)
    requires Bounded(s.auth) && l !in s.loads && id in s.db && |s.db[id].tables| == 3
    requires s.db[id].head.kind == key.kind && s.db[id].head.prefix == key.prefix && !s.db[id].head.mode.SelectedDomains?
    ensures Reaches(s, acts, r) && Served(r, key, rec) && r.auth.items[key].expires == s.clock + 2.0
    ensures rec.id == id && rec.head == s.db[id].head && rec.tables == s.db[id].tables && r.db == s.db && r.loads == s.loads
  {
    hide Reaches, Bounded;
    LoadBegins(s, l, key, id);
    var a := Next(s, LoadBegin(l, key));
    var b := Next(a, LoadHead(l, id));
    hide Next;
    TableRead(s, b, l, key, id, 0);
    var c := Next(b, LoadTable(l));
    TableRead(s, c, l, key, id, 1);
    var d := Next(c, LoadTable(l));
    TableRead(s, d, l, key, id, 2);
    var e := Next(d, LoadTable(l));
    assert s.db[id].tables[..3] == s.db[id].tables;
    rec := e.loads[l].record;
    assert Enabled(e, LoadStore(l));
    r := Next(e, LoadStore(l));
    StoreIs(e, l);
    hide Enabled, InLoad;
    EndRun(r);
    StepRun(e, LoadStore(l), [], r);
    StepRun(d, LoadTable(l), [LoadStore(l)] + [], r);
    StepRun(c, LoadTable(l), [LoadTable(l)] + ([LoadStore(l)] + []), r);
    StepRun(b, LoadTable(l), [LoadTable(l)] + ([LoadTable(l)] + ([LoadStore(l)] + [])), r);
    StepRun(a, LoadHead(l, id), [LoadTable(l)] + ([LoadTable(l)] + ([LoadTable(l)] + ([LoadStore(l)] + []))), r);
    acts := [LoadHead(l, id)] + ([LoadTable(l)] + ([LoadTable(l)] + ([LoadTable(l)] + ([LoadStore(l)] + []))));
    StepRun(s, LoadBegin(l, key), acts, r);
    acts := [LoadBegin(l, key)] + acts;
  }

  /** A mutation is in the key table at once, and after its invalidation nothing of the key is cached. */
  lemma MutationVisible(s: Service, id: KeyId, change: Action)
    requires Shaped(s) && id in s.db
    requires (change.Commit? && change.id == id && |change.row.tables| == 3) || (change.Delete? && change.id == id)
    ensures Enabled(s, change)
    ensures var m := Next(s, change);
            && m == s.(db := m.db, pending := m.pending) && m.pending == s.pending + multiset{id}
            && (change.Commit? ==> m.db == s.db[id := change.row]) && (change.Delete? ==> m.db == s.db - {id})
            && Enabled(m, Invalidate(id))
            && var r := Next(m, Invalidate(id));
               && r.db == m.db && r.pending == s.pending && r.epoch == s.epoch + 1 && r.loads == s.loads
               && (forall key :: key in r.auth.items <==> key in s.auth.items && s.auth.items[key].record.id != id)
               && (forall key :: key in r.auth.items ==> r.auth.items[key] == s.auth.items[key])
               && r.policies.items == s.policies.items - {id}
  {
    assert s.pending + multiset{id} - multiset{id} == s.pending;
  }

  /** An undisturbed policy load reads the current policy and serves it for two seconds. */
  lemma PolicyLoadFills(s: Service, l: nat, id: KeyId) returns (r: Service)
    requires Bounded(s.policies) && l !in s.policyLoads && id in s.db
    ensures Reaches(s, [PolicyLoadBegin(l, id)] + ([PolicyLoadRead(l)] + ([PolicyLoadStore(l)] + [])), r)
    ensures PolicyServed(r, id, s.db[id].head.policy) && r.policies.items[id].expires == s.clock + 2.0 && r.db == s.db
  {
    hide Reaches, Bounded;
    var a := s.(policyLoads := s.policyLoads[l := PolicyBegun(id, s.epoch)]);
    var b := s.(policyLoads := s.policyLoads[l := PolicyRead(id, s.epoch, s.db[id].head.policy)]);
    assert s.policyLoads[l := PolicyBegun(id, s.epoch)][l := b.policyLoads[l]] == b.policyLoads;
    assert Next(s, PolicyLoadBegin(l, id)) == a && Next(a, PolicyLoadRead(l)) == b;
    r := Next(b, PolicyLoadStore(l));
    PolicyStoreIs(b, l);
    hide Next;
    EndRun(r);
    StepRun(b, PolicyLoadStore(l), [], r);
    StepRun(a, PolicyLoadRead(l), [PolicyLoadStore(l)] + [], r);
    StepRun(s, PolicyLoadBegin(l, id), [PolicyLoadRead(l)] + ([PolicyLoadStore(l)] + []), r);
  }

  /** Time passes, keys are created and domains deleted without the caches noticing; a load that finds nothing ends. */
  lemma OutsideIs(s: Service, id: KeyId, row: Row, domains: Table, l: nat, seconds: real)
    ensures seconds >= 0.0 ==> Enabled(s, Tick(seconds)) && Next(s, Tick(seconds)) == s.(clock := s.clock + seconds)
    ensures id !in s.db && |row.tables| == 3 ==>
              Enabled(s, Create(id, row)) && Next(s, Create(id, row)) == s.(db := s.db[id := row])
    ensures id in s.db && s.db[id].head.mode.SelectedDomains? && |s.db[id].tables| == 3 ==>
              && Enabled(s, CascadeDomains(id, domains))
              && var t := s.db[id].tables;
                 Next(s, CascadeDomains(id, domains)) == s.(db := s.db[id := Row(s.db[id].head, [t[0], domains, t[2]])])
    ensures l in s.loads ==> Enabled(s, LoadMiss(l)) && Next(s, LoadMiss(l)) == s.(loads := s.loads - {l})
  {
    if id in s.db && |s.db[id].tables| == 3 {
      var t := s.db[id].tables;
      assert t[1 := domains] == [t[0], domains, t[2]];
    }
    hide Store, StorePolicy;
  }
}
