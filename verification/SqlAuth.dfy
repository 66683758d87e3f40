/** The lifecycle CHECK constraints of the auth tables, and the gate's independent re-check query. */
module SqlAuth {
  import opened Common
  import opened Collections
  import opened SqlLogic
  import opened AuthRows

  function LoginLifecycle(row: LoginRow): Truth {
    var status := Some(row.status);
    Eq(status, Some("pending")).And(IsNull(row.consumedAt)).And(IsNull(row.deletedAt))
    .Or(In(status, ["consumed", "expired"]).And(IsNotNull(row.consumedAt)).And(IsNull(row.deletedAt)))
    .Or(Eq(status, Some("erased")).And(IsNull(row.registrationId)).And(IsNull(row.challengeId))
        .And(IsNotNull(row.consumedAt)).And(IsNotNull(row.deletedAt)).And(IsNull(row.metadata))
        .And(Eq(Some(row.createdAt), Some(row.updatedAt)))
        .And(Eq(Some(row.updatedAt), Some(row.expiresAt)))
        .And(Eq(Some(row.expiresAt), row.consumedAt))
        .And(Eq(row.consumedAt, row.deletedAt)))
  }

  function SessionLifecycle(row: SessionRow): Truth {
    var status := Some(row.status);
    Eq(status, Some("active")).And(IsNotNull(row.userId)).And(IsNull(row.revokedAt)).And(IsNull(row.deletedAt))
    .Or(In(status, ["revoked", "expired"]).And(IsNotNull(row.userId)).And(IsNotNull(row.revokedAt))
        .And(IsNull(row.deletedAt)))
    .Or(Eq(status, Some("erased")).And(IsNull(row.userId)).And(IsNotNull(row.revokedAt))
        .And(IsNotNull(row.deletedAt)).And(IsNull(row.metadata))
        .And(Eq(Some(row.createdAt), Some(row.updatedAt)))
        .And(Eq(Some(row.updatedAt), Some(row.expiresAt)))
        .And(Eq(Some(row.expiresAt), Some(row.lastSeenAt)))
        .And(Eq(Some(row.lastSeenAt), row.revokedAt))
        .And(Eq(row.revokedAt, row.deletedAt)))
  }

  /** No NULL reaches a comparison that decides a lifecycle CHECK, so a stored row satisfies its CHECK
      outright and the re-check's NOT loses no violation. */
  lemma LifecycleNeverUnknown(login: LoginRow, session: SessionRow)
    ensures LoginLifecycle(login) != Unknown
    ensures SessionLifecycle(session) != Unknown
    ensures LoginLifecycle(login).CheckAdmits() <==> !LoginLifecycle(login).Not().WhereKeeps()
    ensures SessionLifecycle(session).CheckAdmits() <==> !SessionLifecycle(session).Not().WhereKeeps()
  {
  }

  // ----- the re-check query -----

  datatype Database = Database(
    logins: map<nat, LoginRow>,
    sessions: map<nat, SessionRow>,
    registrations: set<nat>,
    users: set<nat>)

  function InvalidLogins(db: Database): set<nat> {
    set id | id in db.logins && LoginLifecycle(db.logins[id]).Not().WhereKeeps()
  }

  function InvalidSessions(db: Database): set<nat> {
    set id | id in db.sessions && SessionLifecycle(db.sessions[id]).Not().WhereKeeps()
  }

  /** WHERE status = 'active' ... one GROUP BY user_id group; NULL user ids form one group. */
  function ActiveGroup(db: Database, user: Option<nat>): set<nat> {
    set id | id in db.sessions
             && Eq(Some(db.sessions[id].status), Some("active")).WhereKeeps()
             && db.sessions[id].userId == user
  }

  function DuplicateActive(db: Database): set<Option<nat>> {
    set id | id in db.sessions && |ActiveGroup(db, db.sessions[id].userId)| > 1 :: db.sessions[id].userId
  }

  /** LEFT JOIN ... WHERE link IS NOT NULL AND joined id IS NULL. */
  function OrphanLogins(db: Database): set<nat> {
    set id | id in db.logins && IsNotNull(db.logins[id].registrationId).WhereKeeps()
             && db.logins[id].registrationId.value !in db.registrations
  }

  function OrphanSessions(db: Database): set<nat> {
    set id | id in db.sessions && IsNotNull(db.sessions[id].userId).WhereKeeps()
             && db.sessions[id].userId.value !in db.users
  }

  function AuthStateInvariants(db: Database): (bool, nat) {
    var invalid := |InvalidLogins(db)| + |InvalidSessions(db)| + |DuplicateActive(db)|;
    var orphans := |OrphanLogins(db)| + |OrphanSessions(db)|;
    (invalid == 0 && orphans == 0, orphans)
  }

  predicate SameActiveUser(a: SessionRow, b: SessionRow) {
    a.status == "active" && b.status == "active" && a.userId == b.userId
  }

  ghost predicate OneActivePerUser(db: Database) {
    forall i, j | i in db.sessions && j in db.sessions && SameActiveUser(db.sessions[i], db.sessions[j]) :: i == j
  }

  ghost predicate NoDanglingLink(db: Database) {
    && (forall id :: id in db.logins && db.logins[id].registrationId.Some?
                     ==> db.logins[id].registrationId.value in db.registrations)
    && (forall id :: id in db.sessions && db.sessions[id].userId.Some?
                     ==> db.sessions[id].userId.value in db.users)
  }

  ghost predicate EveryRowAdmitted(db: Database) {
    && (forall id :: id in db.logins ==> LoginLifecycle(db.logins[id]).CheckAdmits())
    && (forall id :: id in db.sessions ==> SessionLifecycle(db.sessions[id]).CheckAdmits())
  }

  lemma PairIsMoreThanOne(s: set<nat>)
    ensures |s| > 1 <==> exists i, j :: i in s && j in s && i != j
  {
    if i, j :| i in s && j in s && i != j {
      assert {i, j} <= s;
      assert |{i, j}| <= |s| by { SubsetCardinality({i, j}, s); }
    } else if s != {} {
      var i :| i in s;
      assert s == {i};
    }
  }

  lemma NoDuplicateGroups(db: Database)
    ensures |DuplicateActive(db)| == 0 <==> OneActivePerUser(db)
  {
    if OneActivePerUser(db) {
      forall id | id in db.sessions ensures |ActiveGroup(db, db.sessions[id].userId)| <= 1 {
        PairIsMoreThanOne(ActiveGroup(db, db.sessions[id].userId));
      }
      assert DuplicateActive(db) == {};
    } else {
      var i, j :| i in db.sessions && j in db.sessions && SameActiveUser(db.sessions[i], db.sessions[j]) && i != j;
      var group := ActiveGroup(db, db.sessions[i].userId);
      assert i in group && j in group;
      PairIsMoreThanOne(group);
      assert db.sessions[i].userId in DuplicateActive(db);
    }
  }

  /** A row is invalid to the re-check exactly when its CHECK would reject it. */
  lemma NotKeepsIsRejection(t: Truth)
    ensures t.Not().WhereKeeps() <==> !t.CheckAdmits()
  {
  }

  lemma InvalidLogin(db: Database, id: nat)
    requires id in db.logins
    ensures id in InvalidLogins(db) <==> !LoginLifecycle(db.logins[id]).CheckAdmits()
  {
    NotKeepsIsRejection(LoginLifecycle(db.logins[id]));
  }

  lemma InvalidSession(db: Database, id: nat)
    requires id in db.sessions
    ensures id in InvalidSessions(db) <==> !SessionLifecycle(db.sessions[id]).CheckAdmits()
  {
    NotKeepsIsRejection(SessionLifecycle(db.sessions[id]));
  }

  lemma NoInvalidRows(db: Database)
    ensures |InvalidLogins(db)| + |InvalidSessions(db)| == 0 <==> EveryRowAdmitted(db)
  {
    forall id | id in db.logins ensures id in InvalidLogins(db) <==> !LoginLifecycle(db.logins[id]).CheckAdmits() {
      InvalidLogin(db, id);
    }
    forall id | id in db.sessions
      ensures id in InvalidSessions(db) <==> !SessionLifecycle(db.sessions[id]).CheckAdmits()
    {
      InvalidSession(db, id);
    }
    assert InvalidLogins(db) == {} && InvalidSessions(db) == {} <==> EveryRowAdmitted(db);
  }

  lemma NoOrphans(db: Database)
    ensures |OrphanLogins(db)| + |OrphanSessions(db)| == 0 <==> NoDanglingLink(db)
  {
    var logins, sessions := OrphanLogins(db), OrphanSessions(db);
    if NoDanglingLink(db) {
      assert logins == {} && sessions == {};
    } else if id :| id in db.logins && db.logins[id].registrationId.Some?
                    && db.logins[id].registrationId.value !in db.registrations {
      assert id in logins;
    } else {
      var id :| id in db.sessions && db.sessions[id].userId.Some? && db.sessions[id].userId.value !in db.users;
      assert id in sessions;
    }
  }

  /** The re-check passes exactly on the states it is meant for, counting nothing else. */
  lemma AuthStateInvariantsExactly(db: Database)
    ensures AuthStateInvariants(db) == (true, 0) <==>
            EveryRowAdmitted(db) && OneActivePerUser(db) && NoDanglingLink(db)
    ensures AuthStateInvariants(db).0 <==> AuthStateInvariants(db) == (true, 0)
  {
    NoInvalidRows(db);
    NoDuplicateGroups(db);
    NoOrphans(db);
  }
}
