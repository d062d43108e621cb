/**
 Administrators and their sessions: the writer transactions that change them, and what
 no sequence of transactions can bring about.
 */
module Credentials {
  import opened Seqs

  type AdminId = nat
  type SessionId = nat
  type Hash = nat

  datatype Role = Superadmin | Operator | Viewer

  /** `changer` is history: the session that made the latest password change, if one did. */
  datatype Admin = Admin(role: Role, active: bool, hash: Hash, changer: Option<SessionId>)

  /** `under` is history: the password hash of the administrator when the session was made. */
  datatype Session = Session(admin: AdminId, expires: int, revoked: bool, under: Hash)

  /** `nextId` never goes back; `issued` is history: every session id ever given out. */
  datatype Database = Database(
    admins: map<AdminId, Admin>,
    sessions: map<SessionId, Session>,
    nextId: AdminId,
    issued: set<SessionId>
  )

  datatype Error = NotAuthorized | AdminNotFound | LastSuperadmin | InvalidCredentials | SessionInactive

  datatype Outcome = Done(db: Database) | Refused(error: Error)

  // ----- the statements -----

  predicate ActiveSuper(a: Admin) { a.role.Superadmin? && a.active }

  function Supers(admins: map<AdminId, Admin>): (r: set<AdminId>) {
    set a | a in admins && ActiveSuper(admins[a])
  }

  /** Every unrevoked session of the administrator but `keep` is revoked. */
  function Revoke(sessions: map<SessionId, Session>, admin: AdminId, keep: Option<SessionId>): (r: map<SessionId, Session>)
    ensures r.Keys == sessions.Keys
  {
    map s | s in sessions ::
      if sessions[s].admin == admin && keep != Some(s) then sessions[s].(revoked := true) else sessions[s]
  }

  predicate Usable(db: Database, s: SessionId, now: int) {
    && s in db.sessions
    && !db.sessions[s].revoked
    && now < db.sessions[s].expires
    && db.sessions[s].admin in db.admins
    && db.admins[db.sessions[s].admin].active
  }

  // ----- the transactions -----

  function CreateAdmin(db: Database, authorized: bool, role: Role, active: bool, hash: Hash): (r: Outcome) {
    if !authorized then Refused(NotAuthorized)
    else Done(db.(admins := db.admins[db.nextId := Admin(role, active, hash, None)], nextId := db.nextId + 1))
  }

  /** The first administrator, inserted only into an empty table; the table's defaults make it an active superadmin. */
  function Bootstrap(db: Database, hash: Hash): (r: Outcome) {
    if db.admins != map[] then Done(db)
    else Done(db.(admins := map[db.nextId := Admin(Superadmin, true, hash, None)], nextId := db.nextId + 1))
  }

  /** Whether giving up `a` as an active superadmin is allowed. */
  predicate SuperRemains(db: Database, a: Admin, stays: bool) {
    !ActiveSuper(a) || stays || |Supers(db.admins)| > 1
  }

  function UpdateAdmin(db: Database, authorized: bool, id: AdminId, role: Option<Role>, active: Option<bool>): (r: Outcome) {
    if !authorized then Refused(NotAuthorized)
    else if id !in db.admins then Refused(AdminNotFound)
    else
      var a := db.admins[id];
      var b := a.(role := if role.Some? then role.value else a.role, active := if active.Some? then active.value else a.active);
      if !SuperRemains(db, a, ActiveSuper(b)) then Refused(LastSuperadmin)
      else
        Done(db.(admins := db.admins[id := b],
                 sessions := if a.active && !b.active then Revoke(db.sessions, id, None) else db.sessions))
  }

  /** Deleting an administrator deletes its sessions with it. */
  function DeleteAdmin(db: Database, authorized: bool, id: AdminId): (r: Outcome) {
    if !authorized then Refused(NotAuthorized)
    else if id !in db.admins then Refused(AdminNotFound)
    else if !SuperRemains(db, db.admins[id], false) then Refused(LastSuperadmin)
    else
      Done(db.(admins := db.admins - {id},
               sessions := map s | s in db.sessions && db.sessions[s].admin != id :: db.sessions[s]))
  }

  /** `expected` is the hash the old password was proved against, before the transaction. */
  function ChangePassword(db: Database, id: AdminId, expected: Hash, hash: Hash, session: Option<SessionId>, now: int): (r: Outcome) {
    if session.Some? && !(Usable(db, session.value, now) && db.sessions[session.value].admin == id) then Refused(SessionInactive)
    else if id !in db.admins || !db.admins[id].active || db.admins[id].hash != expected then Refused(InvalidCredentials)
    else
      Done(db.(admins := db.admins[id := db.admins[id].(hash := hash, changer := session)],
               sessions := Revoke(db.sessions, id, session)))
  }

  function ResetPassword(db: Database, authorized: bool, id: AdminId, hash: Hash): (r: Outcome) {
    if !authorized then Refused(NotAuthorized)
    else if id !in db.admins then Refused(AdminNotFound)
    else
      Done(db.(admins := db.admins[id := db.admins[id].(hash := hash, changer := None)],
               sessions := Revoke(db.sessions, id, None)))
  }

  function CreateSession(db: Database, id: AdminId, expected: Option<Hash>, session: SessionId, expires: int): (r: Outcome) {
    if id !in db.admins || !db.admins[id].active || (expected.Some? && db.admins[id].hash != expected.value) then
      Refused(AdminNotFound)
    else
      Done(db.(sessions := db.sessions[session := Session(id, expires, false, db.admins[id].hash)],
               issued := db.issued + {session}))
  }

  function RevokeSession(db: Database, session: SessionId): (r: Outcome) {
    if session in db.sessions then
      Done(db.(sessions := db.sessions[session := db.sessions[session].(revoked := true)]))
    else Done(db)
  }

  function RevokeAdminSessions(db: Database, authorized: bool, id: AdminId, keep: Option<SessionId>): (r: Outcome) {
    if !authorized then Refused(NotAuthorized)
    else if id !in db.admins then Refused(AdminNotFound)
    else Done(db.(sessions := Revoke(db.sessions, id, keep)))
  }

  // ----- runs of transactions -----

  datatype Op =
    | OpCreateAdmin(authorized: bool, role: Role, active: bool, hash: Hash)
    | OpBootstrap(hash: Hash)
    | OpUpdateAdmin(authorized: bool, id: AdminId, newRole: Option<Role>, newActive: Option<bool>)
    | OpDeleteAdmin(authorized: bool, id: AdminId)
    | OpChangePassword(id: AdminId, expected: Hash, hash: Hash, via: Option<SessionId>, now: int)
    | OpResetPassword(authorized: bool, id: AdminId, hash: Hash)
    | OpCreateSession(id: AdminId, proof: Option<Hash>, session: SessionId, expires: int)
    | OpRevokeSession(session: SessionId)
    | OpRevokeAdminSessions(authorized: bool, id: AdminId, keep: Option<SessionId>)

  function Outcomes(db: Database, op: Op): (r: Outcome) {
    match op
    case OpCreateAdmin(ok, role, active, hash) => CreateAdmin(db, ok, role, active, hash)
    case OpBootstrap(hash) => Bootstrap(db, hash)
    case OpUpdateAdmin(ok, id, role, active) => UpdateAdmin(db, ok, id, role, active)
    case OpDeleteAdmin(ok, id) => DeleteAdmin(db, ok, id)
    case OpChangePassword(id, expected, hash, via, now) => ChangePassword(db, id, expected, hash, via, now)
    case OpResetPassword(ok, id, hash) => ResetPassword(db, ok, id, hash)
    case OpCreateSession(id, proof, session, expires) => CreateSession(db, id, proof, session, expires)
    case OpRevokeSession(session) => RevokeSession(db, session)
    case OpRevokeAdminSessions(ok, id, keep) => RevokeAdminSessions(db, ok, id, keep)
  }

  /** A refused transaction is rolled back. */
  function Next(db: Database, op: Op): (r: Database) {
    match Outcomes(db, op)
    case Done(after) => after
    case Refused(_) => db
  }

  /** Session ids are never given out twice. */
  predicate Fresh(db: Database, op: Op) {
    op.OpCreateSession? ==> op.session !in db.issued
  }

  ghost predicate Reaches(db: Database, ops: seq<Op>, end: Database)
    decreases |ops|
  {
    if ops == [] then db == end else Fresh(db, ops[0]) && Reaches(Next(db, ops[0]), ops[1..], end)
  }

  function Init(): (db: Database) { Database(map[], map[], 1, {}) }

  // ----- the invariant -----

  /** An unrevoked session is of an active administrator, under its current hash or by its latest changer. */
  ghost predicate SessionOk(db: Database, id: SessionId, s: Session) {
    && s.admin in db.admins
    && (!s.revoked ==>
          && db.admins[s.admin].active
          && (s.under == db.admins[s.admin].hash || db.admins[s.admin].changer == Some(id)))
  }

  ghost predicate Inv(db: Database) {
    && (forall s :: s in db.sessions ==> s in db.issued && SessionOk(db, s, db.sessions[s]))
    && (forall a :: a in db.admins ==> a < db.nextId)
  }

  lemma OneSuperLeft(s: set<AdminId>, a: AdminId)
    requires |s| > 1
    ensures s - {a} != {}
  {
    assert |s - {a}| >= |s| - 1;
  }

  lemma StepInv(db: Database, op: Op)
    requires Inv(db) && Fresh(db, op)
    ensures Inv(Next(db, op))
  {
  }

  /** An active superadmin, once there, is never the one given up last. */
  lemma StepKeepsSuper(db: Database, op: Op)
    requires Inv(db) && Supers(db.admins) != {}
    ensures Supers(Next(db, op).admins) != {}
  {
    var next := Next(db, op);
    if next.admins != db.admins && (op.OpUpdateAdmin? || op.OpDeleteAdmin?) {
      if ActiveSuper(db.admins[op.id]) && |Supers(db.admins)| > 1 {
        OneSuperLeft(Supers(db.admins), op.id);
        var b :| b in Supers(db.admins) - {op.id};
        assert b in Supers(next.admins);
      } else {
        var b :| b in Supers(db.admins);
        assert b in Supers(next.admins);
      }
    } else {
      var b :| b in Supers(db.admins);
      assert b in Supers(next.admins);
    }
  }

  lemma {:induction false} RunInv(db: Database, ops: seq<Op>, end: Database)
    requires Inv(db) && Reaches(db, ops, end)
    ensures Inv(end) && (Supers(db.admins) != {} ==> Supers(end.admins) != {})
    decreases |ops|
  {
    if ops != [] {
      StepInv(db, ops[0]);
      if Supers(db.admins) != {} { StepKeepsSuper(db, ops[0]); }
      hide Inv, Next, Fresh;
      RunInv(Next(db, ops[0]), ops[1..], end);
    }
  }

  /**
   In every reachable state an inactive administrator has no unrevoked session, and each
   unrevoked session was created under its administrator's current password hash or made
   the latest password change itself.
   */
  lemma CredentialInvariant(ops: seq<Op>, db: Database, s: SessionId)
    requires Reaches(Init(), ops, db) && s in db.sessions && !db.sessions[s].revoked
    ensures var x := db.sessions[s];
            && x.admin in db.admins
            && db.admins[x.admin].active
            && (x.under == db.admins[x.admin].hash || db.admins[x.admin].changer == Some(s))
  {
    RunInv(Init(), ops, db);
    hide Reaches;
  }

  /** Once an active superadmin exists, every later state has one. */
  lemma SuperadminRemains(before: seq<Op>, mid: Database, after: seq<Op>, end: Database)
    requires Reaches(Init(), before, mid) && Reaches(mid, after, end)
    requires exists a :: a in mid.admins && mid.admins[a].role == Superadmin && mid.admins[a].active
    ensures exists a :: a in end.admins && end.admins[a].role == Superadmin && end.admins[a].active
  {
    RunInv(Init(), before, mid);
    var first :| first in mid.admins && mid.admins[first].role == Superadmin && mid.admins[first].active;
    assert first in Supers(mid.admins);
    RunInv(mid, after, end);
    hide Reaches;
    var a :| a in Supers(end.admins);
  }

  /** A bootstrapped system always has an active superadmin. */
  lemma BootstrapLasts(hash: Hash, ops: seq<Op>, end: Database)
    requires Reaches(Next(Init(), OpBootstrap(hash)), ops, end)
    ensures exists a :: a in end.admins && end.admins[a].role == Superadmin && end.admins[a].active
  {
    var db := Next(Init(), OpBootstrap(hash));
    assert 1 in Supers(db.admins);
    RunInv(db, ops, end);
    hide Reaches;
    var a :| a in Supers(end.admins);
  }

  // ----- what each transaction does, and when it is refused -----

  /** Somebody else is an active superadmin. */
  ghost predicate AnotherSuper(db: Database, id: AdminId) {
    exists b :: b in db.admins && b != id && db.admins[b].role == Superadmin && db.admins[b].active
  }

  lemma MoreThanOne(db: Database, id: AdminId)
    requires id in db.admins && ActiveSuper(db.admins[id])
    ensures |Supers(db.admins)| > 1 <==> AnotherSuper(db, id)
  {
    var supers := Supers(db.admins);
    assert supers == supers - {id} + {id} && |supers| == |supers - {id}| + 1;
    if AnotherSuper(db, id) {
      var b :| b in db.admins && b != id && db.admins[b].role == Superadmin && db.admins[b].active;
      assert b in supers - {id};
    } else {
      assert supers - {id} == {};
    }
  }

  /** Exactly the sessions of `id` other than `keep` are revoked. */
  ghost predicate OnlyRevoked(a: map<SessionId, Session>, b: map<SessionId, Session>, id: AdminId, keep: Option<SessionId>) {
    && b.Keys == a.Keys
    && forall s :: s in a ==> b[s] == if a[s].admin == id && keep != Some(s) then a[s].(revoked := true) else a[s]
  }

  /** Only `id` changes among the administrators. */
  ghost predicate OnlyChanged(a: map<AdminId, Admin>, b: map<AdminId, Admin>, id: AdminId) {
    b.Keys == a.Keys && id in a && forall x :: x in a && x != id ==> b[x] == a[x]
  }

  lemma UpdateIs(db: Database, authorized: bool, id: AdminId, role: Option<Role>, active: Option<bool>)
    ensures var r := UpdateAdmin(db, authorized, id, role, active);
            if !authorized then r == Refused(NotAuthorized)
            else if id !in db.admins then r == Refused(AdminNotFound)
            else
              var a := db.admins[id];
              var b := Admin(if role.Some? then role.value else a.role, if active.Some? then active.value else a.active, a.hash, a.changer);
              if a.role == Superadmin && a.active && !(b.role == Superadmin && b.active) && !AnotherSuper(db, id) then
                r == Refused(LastSuperadmin)
              else
                && r.Done? && r.db == db.(admins := r.db.admins, sessions := r.db.sessions)
                && OnlyChanged(db.admins, r.db.admins, id) && r.db.admins[id] == b
                && (if a.active && !b.active then OnlyRevoked(db.sessions, r.db.sessions, id, None) else r.db.sessions == db.sessions)
  {
    if id in db.admins && ActiveSuper(db.admins[id]) { MoreThanOne(db, id); }
    hide Supers;
  }

  lemma DeleteIs(db: Database, authorized: bool, id: AdminId)
    ensures var r := DeleteAdmin(db, authorized, id);
            if !authorized then r == Refused(NotAuthorized)
            else if id !in db.admins then r == Refused(AdminNotFound)
            else if db.admins[id].role == Superadmin && db.admins[id].active && !AnotherSuper(db, id) then r == Refused(LastSuperadmin)
            else
              && r.Done? && r.db == db.(admins := r.db.admins, sessions := r.db.sessions)
              && r.db.admins.Keys == db.admins.Keys - {id}
              && (forall x :: x in r.db.admins ==> r.db.admins[x] == db.admins[x])
              && (forall s :: s in r.db.sessions <==> s in db.sessions && db.sessions[s].admin != id)
              && (forall s :: s in r.db.sessions ==> r.db.sessions[s] == db.sessions[s])
  {
    if id in db.admins && ActiveSuper(db.admins[id]) { MoreThanOne(db, id); }
    hide Supers;
  }

  /** A session is accepted until its second of expiry, unless it was revoked or its administrator is inactive or gone. */
  lemma UsableIff(db: Database, s: SessionId, now: int)
    ensures Usable(db, s, now) <==>
            s in db.sessions && var x := db.sessions[s];
            !x.revoked && now + 1 <= x.expires && x.admin in db.admins && db.admins[x.admin].active
  {
  }

  lemma ChangeIs(db: Database, id: AdminId, proved: Hash, hash: Hash, via: Option<SessionId>, now: int)
    ensures var r := ChangePassword(db, id, proved, hash, via, now);
            if via.Some? && (!Usable(db, via.value, now) || db.sessions[via.value].admin != id) then r == Refused(SessionInactive)
            else if id in db.admins && db.admins[id].active && db.admins[id].hash == proved then
              && r.Done? && r.db == db.(admins := r.db.admins, sessions := r.db.sessions)
              && OnlyChanged(db.admins, r.db.admins, id)
              && r.db.admins[id] == Admin(db.admins[id].role, true, hash, via)
              && OnlyRevoked(db.sessions, r.db.sessions, id, via)
            else r == Refused(InvalidCredentials)
  {
  }

  lemma ResetIs(db: Database, authorized: bool, id: AdminId, hash: Hash)
    ensures var r := ResetPassword(db, authorized, id, hash);
            if !authorized then r == Refused(NotAuthorized)
            else if id !in db.admins then r == Refused(AdminNotFound)
            else
              && r.Done? && r.db == db.(admins := r.db.admins, sessions := r.db.sessions)
              && OnlyChanged(db.admins, r.db.admins, id)
              && r.db.admins[id] == Admin(db.admins[id].role, db.admins[id].active, hash, None)
              && OnlyRevoked(db.sessions, r.db.sessions, id, None)
  {
  }

  /** A new administrator gets a number never used before; the first one of an empty table is an active superadmin. */
  lemma CreateIs(db: Database, authorized: bool, role: Role, active: bool, hash: Hash)
    requires Inv(db)
    ensures var r := CreateAdmin(db, authorized, role, active, hash);
            if !authorized then r == Refused(NotAuthorized)
            else
              && r.Done? && r.db == db.(admins := r.db.admins, nextId := db.nextId + 1) && db.nextId !in db.admins
              && r.db.admins.Keys == db.admins.Keys + {db.nextId}
              && r.db.admins[db.nextId] == Admin(role, active, hash, None)
              && (forall x :: x in db.admins ==> r.db.admins[x] == db.admins[x])
    ensures var r := Bootstrap(db, hash);
            && r.Done?
            && (if db.admins == map[] then r.db == db.(admins := map[db.nextId := Admin(Superadmin, true, hash, None)], nextId := db.nextId + 1)
                else r.db == db)
  {
  }

  /** A session is opened exactly for an active administrator whose proof, if one is given, is current. */
  lemma SessionIs(db: Database, id: AdminId, proof: Option<Hash>, session: SessionId, expires: int, now: int)
    ensures var r := CreateSession(db, id, proof, session, expires);
            && (r.Done? <==> id in db.admins && db.admins[id].active && (proof.None? || proof.value == db.admins[id].hash))
            && (r.Refused? ==> r == Refused(AdminNotFound))
            && (r.Done? ==>
                  && r.db == db.(sessions := r.db.sessions, issued := db.issued + {session})
                  && r.db.sessions.Keys == db.sessions.Keys + {session}
                  && (forall s :: s in db.sessions && s != session ==> r.db.sessions[s] == db.sessions[s])
                  && r.db.sessions[session].admin == id
                  && (Usable(r.db, session, now) <==> now < expires))
  {
  }

  lemma RevokeIs(db: Database, authorized: bool, id: AdminId, keep: Option<SessionId>, session: SessionId)
    ensures var r := RevokeAdminSessions(db, authorized, id, keep);
            if !authorized then r == Refused(NotAuthorized)
            else if id !in db.admins then r == Refused(AdminNotFound)
            else r.Done? && r.db == db.(sessions := r.db.sessions) && OnlyRevoked(db.sessions, r.db.sessions, id, keep)
    ensures var r := RevokeSession(db, session);
            && r.Done? && r.db == db.(sessions := r.db.sessions) && r.db.sessions.Keys == db.sessions.Keys
            && forall s :: s in db.sessions ==>
                 r.db.sessions[s] == if s == session then db.sessions[s].(revoked := true) else db.sessions[s]
  {
  }

  // ----- what is cut off stays cut off -----

  /** The session was given out and is revoked or gone. */
  ghost predicate Dead(db: Database, s: SessionId) {
    s in db.issued && (s in db.sessions ==> db.sessions[s].revoked)
  }

  lemma DeadStep(db: Database, op: Op, s: SessionId)
    requires Fresh(db, op) && Dead(db, s)
    ensures Dead(Next(db, op), s)
  {
  }

  lemma {:induction false} DeadForever(db: Database, ops: seq<Op>, end: Database, s: SessionId)
    requires Dead(db, s) && Reaches(db, ops, end)
    ensures Dead(end, s)
    decreases |ops|
  {
    if ops != [] {
      DeadStep(db, ops[0], s);
      hide Dead, Next, Fresh;
      DeadForever(Next(db, ops[0]), ops[1..], end, s);
    }
  }

  /** Transactions that must end every session of an administrator but the acting one. */
  predicate Severs(db: Database, op: Op, s: SessionId) {
    && s in db.sessions
    && Outcomes(db, op).Done?
    && (match op
        case OpUpdateAdmin(_, id, _, active) => db.sessions[s].admin == id && active == Some(false)
        case OpDeleteAdmin(_, id) => db.sessions[s].admin == id
        case OpChangePassword(id, _, _, via, _) => db.sessions[s].admin == id && via != Some(s)
        case OpResetPassword(_, id, _) => db.sessions[s].admin == id
        case OpRevokeAdminSessions(_, id, keep) => db.sessions[s].admin == id && keep != Some(s)
        case OpRevokeSession(x) => x == s
        case _ => false)
  }

  /**
   After a deactivation, deletion, password change, reset or revocation, no session it was
   meant to end is ever accepted again, whatever happens later, reactivation included.
   */
  lemma SeveredForGood(before: seq<Op>, db: Database, op: Op, s: SessionId, after: seq<Op>, end: Database, now: int)
    requires Reaches(Init(), before, db) && Fresh(db, op) && Severs(db, op, s) && Reaches(Next(db, op), after, end)
    ensures !Usable(end, s, now)
  {
    RunInv(Init(), before, db);
    SeverStep(db, op, s);
    hide Reaches, Severs, Next, Inv;
    DeadForever(Next(db, op), after, end, s);
  }

  lemma SeverStep(db: Database, op: Op, s: SessionId)
    requires Inv(db) && Severs(db, op, s)
    ensures Dead(Next(db, op), s)
  {
    assert SessionOk(db, s, db.sessions[s]);
  }

  // ----- a proof of the old password is good for one change -----

  /** The transaction is carried out and makes `hash` the hash of an administrator that was there before. */
  predicate Writes(db: Database, op: Op, id: AdminId, hash: Hash) {
    && Outcomes(db, op).Done?
    && (op.OpChangePassword? || op.OpResetPassword?)
    && op.id == id && op.hash == hash
  }

  ghost predicate NeverWrites(db: Database, ops: seq<Op>, id: AdminId, hash: Hash)
    decreases |ops|
  {
    ops == [] || (!Writes(db, ops[0], id, hash) && NeverWrites(Next(db, ops[0]), ops[1..], id, hash))
  }

  /** The id was given out, and `hash` is not its hash. */
  ghost predicate Outdated(db: Database, id: AdminId, hash: Hash) {
    id < db.nextId && (id in db.admins ==> db.admins[id].hash != hash)
  }

  lemma OutdatedStep(db: Database, op: Op, id: AdminId, hash: Hash)
    requires Outdated(db, id, hash) && !Writes(db, op, id, hash)
    ensures Outdated(Next(db, op), id, hash)
  {
    hide Revoke;
  }

  lemma {:induction false} StaysOutdated(db: Database, ops: seq<Op>, end: Database, id: AdminId, hash: Hash)
    requires Outdated(db, id, hash) && Reaches(db, ops, end) && NeverWrites(db, ops, id, hash)
    ensures Outdated(end, id, hash)
    decreases |ops|
  {
    if ops != [] {
      OutdatedStep(db, ops[0], id, hash);
      hide Outdated, Writes, Next, Fresh;
      StaysOutdated(Next(db, ops[0]), ops[1..], end, id, hash);
    }
  }

  /** Whoever proved `former` before can change the password, or open a session, now. */
  ghost predicate ProofGood(db: Database, id: AdminId, former: Hash) {
    || (exists hash, via, now :: ChangePassword(db, id, former, hash, via, now).Done?)
    || (exists session, expires :: CreateSession(db, id, Some(former), session, expires).Done?)
  }

  lemma ProofGoodIff(db: Database, id: AdminId, former: Hash)
    ensures ProofGood(db, id, former) <==> id in db.admins && db.admins[id].active && db.admins[id].hash == former
  {
    if id in db.admins && db.admins[id].active && db.admins[id].hash == former {
      assert CreateSession(db, id, Some(former), 0, 0).Done?;
    }
  }

  /**
   After a change of password the proof it was made with is refused, for another change
   and for a session, in every later state until a transaction makes the former hash the
   current one again; after that transaction it is good exactly if the administrator is active.
   */
  lemma ProofUsedUp(before: seq<Op>, db: Database, id: AdminId, former: Hash, hash: Hash, via: Option<SessionId>, now: int,
                    ops: seq<Op>, end: Database, op: Op)
    requires Reaches(Init(), before, db) && ChangePassword(db, id, former, hash, via, now).Done? && hash != former
    requires var after := ChangePassword(db, id, former, hash, via, now).db;
             Reaches(after, ops, end) && NeverWrites(after, ops, id, former)
    ensures var after := ChangePassword(db, id, former, hash, via, now).db;
            && after.admins[id].hash == hash && after.admins[id].changer == via
            && (via.Some? ==> after.sessions[via.value] == db.sessions[via.value])
    ensures !ProofGood(end, id, former)
    ensures Writes(end, op, id, former) ==> (ProofGood(Next(end, op), id, former) <==> end.admins[id].active)
  {
    RunInv(Init(), before, db);
    var after := ChangePassword(db, id, former, hash, via, now).db;
    assert Outdated(after, id, former);
    StaysOutdated(after, ops, end, id, former);
    hide Reaches, NeverWrites, Inv;
    ProofGoodIff(end, id, former);
    ProofGoodIff(Next(end, op), id, former);
  }

  // ----- the object -----

  /** Of the sessions of `id`, at most `keep` is unrevoked. */
  ghost predicate OnlyOpen(db: Database, id: AdminId, keep: Option<SessionId>) {
    forall s :: s in db.sessions && db.sessions[s].admin == id && !db.sessions[s].revoked ==> keep == Some(s)
  }

  /** The tables as the service changes them, one transaction at a time. */
  class AdminStore {
    var db: Database

    constructor ()
      ensures db == Init() && Inv(db)
    {
      db := Init();
    }

    /** The guard both updating and deleting run before they write. */
    method SuperadminWouldRemain(a: Admin, role: Role, active: bool, deleting: bool) returns (ok: bool)
      ensures ok == SuperRemains(db, a, !deleting && role.Superadmin? && active)
    {
      if !a.role.Superadmin? || !a.active { return true; }
      if !deleting && role.Superadmin? && active { return true; }
      ok := |Supers(db.admins)| > 1;
    }

    /** Updating keeps the invariant and an active superadmin; a deactivation leaves no session open. */
    method Update(authorized: bool, id: AdminId, role: Option<Role>, active: Option<bool>) returns (r: Outcome)
      requires Inv(db)
      modifies this
      ensures r == UpdateAdmin(old(db), authorized, id, role, active)
      ensures db == Next(old(db), OpUpdateAdmin(authorized, id, role, active)) && Inv(db)
      ensures Supers(old(db).admins) != {} ==> Supers(db.admins) != {}
      ensures r.Done? && active == Some(false) ==> OnlyOpen(db, id, None)
    {
      StepInv(db, OpUpdateAdmin(authorized, id, role, active));
      if Supers(db.admins) != {} { StepKeepsSuper(db, OpUpdateAdmin(authorized, id, role, active)); }
      if !authorized { return Refused(NotAuthorized); }
      if id !in db.admins { return Refused(AdminNotFound); }
      var row := db.admins[id];
      var nextRole := if role.Some? then role.value else row.role;
      var nextActive := if active.Some? then active.value else row.active;
      var ok := SuperadminWouldRemain(row, nextRole, nextActive, false);
      if !ok { return Refused(LastSuperadmin); }
      db := db.(admins := db.admins[id := row.(role := nextRole, active := nextActive)]);
      if row.active && !nextActive {
        db := db.(sessions := Revoke(db.sessions, id, None));
      }
      r := Done(db);
    }

    /** Deleting leaves neither the administrator nor any session of it, and keeps an active superadmin. */
    method Delete(authorized: bool, id: AdminId) returns (r: Outcome)
      requires Inv(db)
      modifies this
      ensures r == DeleteAdmin(old(db), authorized, id)
      ensures db == Next(old(db), OpDeleteAdmin(authorized, id)) && Inv(db)
      ensures Supers(old(db).admins) != {} ==> Supers(db.admins) != {}
      ensures r.Done? ==> id !in db.admins && forall s :: s in db.sessions ==> db.sessions[s].admin != id
    {
      StepInv(db, OpDeleteAdmin(authorized, id));
      if Supers(db.admins) != {} { StepKeepsSuper(db, OpDeleteAdmin(authorized, id)); }
      if !authorized { return Refused(NotAuthorized); }
      if id !in db.admins { return Refused(AdminNotFound); }
      var row := db.admins[id];
      var ok := SuperadminWouldRemain(row, row.role, row.active, true);
      if !ok { return Refused(LastSuperadmin); }
      var kept := map s | s in db.sessions && db.sessions[s].admin != id :: db.sessions[s];
      db := db.(admins := db.admins - {id}, sessions := kept);
      assert db == DeleteAdmin(old(db), authorized, id).db;
      r := Done(db);
    }

    /** A change of password leaves at most the acting session open. */
    method Change(id: AdminId, expected: Hash, hash: Hash, session: Option<SessionId>, now: int) returns (r: Outcome)
      requires Inv(db)
      modifies this
      ensures r == ChangePassword(old(db), id, expected, hash, session, now)
      ensures db == Next(old(db), OpChangePassword(id, expected, hash, session, now)) && Inv(db)
      ensures r.Done? ==> id in db.admins && db.admins[id].hash == hash && OnlyOpen(db, id, session)
      ensures r.Done? && session.Some? ==> Usable(db, session.value, now)
    {
      StepInv(db, OpChangePassword(id, expected, hash, session, now));
      if session.Some? {
        if !Usable(db, session.value, now) || db.sessions[session.value].admin != id { return Refused(SessionInactive); }
      }
      if id !in db.admins || !db.admins[id].active || db.admins[id].hash != expected {
        return Refused(InvalidCredentials);
      }
      db := db.(admins := db.admins[id := db.admins[id].(hash := hash, changer := session)]);
      db := db.(sessions := Revoke(db.sessions, id, session));
      r := Done(db);
    }

    /** A reset leaves no session open. */
    method Reset(authorized: bool, id: AdminId, hash: Hash) returns (r: Outcome)
      requires Inv(db)
      modifies this
      ensures r == ResetPassword(old(db), authorized, id, hash)
      ensures db == Next(old(db), OpResetPassword(authorized, id, hash)) && Inv(db)
      ensures r.Done? ==> id in db.admins && db.admins[id].hash == hash && OnlyOpen(db, id, None)
    {
      StepInv(db, OpResetPassword(authorized, id, hash));
      if !authorized { return Refused(NotAuthorized); }
      if id !in db.admins { return Refused(AdminNotFound); }
      db := db.(admins := db.admins[id := db.admins[id].(hash := hash, changer := None)]);
      db := db.(sessions := Revoke(db.sessions, id, None));
      r := Done(db);
    }

    /** A new session is usable until it expires, and no other session changes. */
    method Open(id: AdminId, expected: Option<Hash>, session: SessionId, expires: int) returns (r: Outcome)
      requires Inv(db) && session !in db.issued
      modifies this
      ensures r == CreateSession(old(db), id, expected, session, expires)
      ensures db == Next(old(db), OpCreateSession(id, expected, session, expires)) && Inv(db)
      ensures r.Done? ==> forall now :: now < expires ==> Usable(db, session, now)
      ensures forall s :: s in old(db).sessions ==> s in db.sessions && db.sessions[s] == old(db).sessions[s]
    {
      StepInv(db, OpCreateSession(id, expected, session, expires));
      if id !in db.admins || !db.admins[id].active { return Refused(AdminNotFound); }
      if expected.Some? && db.admins[id].hash != expected.value { return Refused(AdminNotFound); }
      db := db.(sessions := db.sessions[session := Session(id, expires, false, db.admins[id].hash)],
                issued := db.issued + {session});
      r := Done(db);
    }
  }
}
