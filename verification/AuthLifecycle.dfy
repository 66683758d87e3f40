/** The life of auth sessions and login attempts under rotation, logout, resolution, freezing, erasure
    and retention sweeps, as runs of atomic transactions. */
module AuthLifecycle {
  import opened Common
  import opened SqlLogic
  import opened AuthRows
  import opened SqlAuth
  import opened RetentionSweep

  /** The one timestamp of an erased row. */
  const ERASED_AT := 0

  /** `owner` maps a registration to its user; `live` are the registrations that may mint sessions;
      `used` holds every bearer hash ever minted. */
  datatype State = State(db: Database, owner: map<nat, nat>, live: set<nat>, clock: int, used: set<string>)

  datatype Event =
    | Tick(elapsed: nat)
    | CreateAccount(registration: nat, user: nat)
    | StartLogin(id: nat, link: Option<nat>, opaqueId: string, lookupHash: string, expiresAt: int)
    | ConsumeLogin(id: nat)
    | Rotate(registration: nat, id: nat, token: string, expiresAt: int)
    | Logout(token: string)
    | Resolve(token: string)
    | Freeze(registration: nat)
    | EraseAccount(registration: nat, mode: Mode, loginNames: nat -> (string, string), tokenNames: nat -> string)
    | Purge(logins: Policy, sessions: Policy, loginNames: nat -> (string, string), tokenNames: nat -> string)

  // ----- rows -----

  function ErasedSession(token: string): SessionRow {
    SessionRow(None, token, "erased", ERASED_AT, ERASED_AT, Some(ERASED_AT), ERASED_AT, ERASED_AT,
               Some(ERASED_AT), None)
  }

  function ErasedLogin(names: (string, string)): LoginRow {
    LoginRow(names.0, names.1, None, None, "erased", ERASED_AT, Some(ERASED_AT), ERASED_AT, ERASED_AT,
             Some(ERASED_AT), None)
  }

  const SESSIONS: Kind<SessionRow, string> := Kind(
    (row: SessionRow) => row.status == "active",
    (row: SessionRow) => row.expiresAt,
    (row: SessionRow) => if row.status == "revoked" || row.status == "expired" then row.revokedAt else None,
    (row: SessionRow) => row.(status := "expired", revokedAt := Some(row.expiresAt)),
    (token: string) => ErasedSession(token),
    (row: SessionRow) => if row.status == "erased" then row.(tokenHash := "") else row)

  const LOGINS: Kind<LoginRow, (string, string)> := Kind(
    (row: LoginRow) => row.status == "pending",
    (row: LoginRow) => row.expiresAt,
    (row: LoginRow) => if row.status == "consumed" || row.status == "expired" then row.consumedAt else None,
    (row: LoginRow) => row.(status := "expired", consumedAt := Some(row.expiresAt)),
    (names: (string, string)) => ErasedLogin(names),
    (row: LoginRow) => if row.status == "erased" then row.(opaqueId := "", lookupHash := "") else row)

  /** Both tables obey the laws the sweep theorems rest on. */
  lemma KindsAreLawful()
    ensures Lawful(SESSIONS) && Lawful(LOGINS)
  {
  }

  function MintedRow(user: nat, token: string, expiresAt: int, now: int): SessionRow {
    SessionRow(Some(user), token, "active", expiresAt, now, None, now, now, None, None)
  }

  function Revoked(row: SessionRow, at: int): SessionRow {
    row.(status := "revoked", revokedAt := Some(at))
  }

  predicate ActiveOf(row: SessionRow, user: nat) {
    row.status == "active" && row.userId == Some(user)
  }

  function Consumed(row: LoginRow, at: int): LoginRow {
    row.(status := "consumed", consumedAt := Some(at))
  }

  function RevokeUser(sessions: map<nat, SessionRow>, user: nat, at: int): map<nat, SessionRow> {
    map id | id in sessions :: if ActiveOf(sessions[id], user) then Revoked(sessions[id], at) else sessions[id]
  }

  function ResolveRow(row: SessionRow, token: string, now: int): SessionRow {
    if row.status == "active" && row.tokenHash == token then
      if row.expiresAt <= now then SESSIONS.expire(row) else row.(lastSeenAt := now)
    else row
  }

  // ----- transactions; one whose guard fails rolls back -----

  function Apply(s: State, e: Event): State {
    match e
    case Tick(elapsed) => s.(clock := s.clock + elapsed)
    case CreateAccount(registration, user) =>
      if registration in s.db.registrations || user in s.db.users then s
      else s.(db := s.db.(registrations := s.db.registrations + {registration}, users := s.db.users + {user}),
              owner := s.owner[registration := user], live := s.live + {registration})
    case StartLogin(id, link, opaqueId, lookupHash, expiresAt) =>
      if id in s.db.logins || (link.Some? && link.value !in s.live) then s
      else s.(db := s.db.(logins := s.db.logins[id := LoginRow(opaqueId, lookupHash, link, None, "pending", expiresAt,
                                                                None, s.clock, s.clock, None, None)]))
    case ConsumeLogin(id) =>
      if id in s.db.logins && s.db.logins[id].status == "pending" then
        s.(db := s.db.(logins := s.db.logins[id := Consumed(s.db.logins[id], s.clock)]))
      else s
    case Rotate(registration, id, token, expiresAt) => ApplyRotate(s, registration, id, token, expiresAt)
    case Logout(token) =>
      s.(db := s.db.(sessions := map id | id in s.db.sessions ::
        if s.db.sessions[id].status == "active" && s.db.sessions[id].tokenHash == token
        then Revoked(s.db.sessions[id], s.clock) else s.db.sessions[id]))
    case Resolve(token) =>
      s.(db := s.db.(sessions := map id | id in s.db.sessions :: ResolveRow(s.db.sessions[id], token, s.clock)))
    case Freeze(registration) =>
      if registration !in s.owner then s
      else s.(db := s.db.(sessions := RevokeUser(s.db.sessions, s.owner[registration], s.clock)),
              live := s.live - {registration})
    case EraseAccount(registration, mode, loginNames, tokenNames) =>
      ApplyErase(s, registration, mode, loginNames, tokenNames)
    case Purge(logins, sessions, loginNames, tokenNames) =>
      s.(db := Purged(s.db, s.clock, e))
  }

  /** One retention pass over both tables. */
  function Purged(db: Database, now: int, e: Event): Database
    requires e.Purge?
  {
    db.(logins := Sweep(LOGINS, db.logins, now, e.logins, e.loginNames),
        sessions := Sweep(SESSIONS, db.sessions, now, e.sessions, e.tokenNames))
  }

  /** A new session replaces every active one of its user; a suspended or erased account is refused. */
  function ApplyRotate(s: State, registration: nat, id: nat, token: string, expiresAt: int): State {
    if registration in s.live && registration in s.owner && id !in s.db.sessions && token !in s.used
       && s.clock < expiresAt
    then
      var user := s.owner[registration];
      var minted := MintedRow(user, token, expiresAt, s.clock);
      s.(db := s.db.(sessions := RevokeUser(s.db.sessions, user, s.clock)[id := minted]),
         used := s.used + {token})
    else s
  }

  function ApplyErase(s: State, registration: nat, mode: Mode,
                      loginNames: nat -> (string, string), tokenNames: nat -> string): State {
    if registration !in s.owner then s
    else
      var user := Some(s.owner[registration]);
      var sessions, logins := s.db.sessions, s.db.logins;
      match mode
      case Anonymise =>
        s.(db := s.db.(
             sessions := map id | id in sessions ::
               if sessions[id].userId == user then ErasedSession(tokenNames(id)) else sessions[id],
             logins := map id | id in logins ::
               if logins[id].registrationId == Some(registration) then ErasedLogin(loginNames(id)) else logins[id]),
           live := s.live - {registration})
      case Delete =>
        s.(db := Database(
             map id | id in logins && logins[id].registrationId != Some(registration) :: logins[id],
             map id | id in sessions && sessions[id].userId != user :: sessions[id],
             s.db.registrations - {registration},
             s.db.users - {user.value}),
           owner := s.owner - {registration},
           live := s.live - {registration})
  }

  const START := State(Database(map[], map[], {}, {}), map[], {}, 0, {})

  function Run(s: State, events: seq<Event>): State {
    if events == [] then s else Apply(Run(s, events[..|events| - 1]), events[|events| - 1])
  }

  // ----- invariant -----

  ghost predicate Accounts(s: State) {
    && s.live <= s.owner.Keys <= s.db.registrations
    && (forall r :: r in s.owner ==> s.owner[r] in s.db.users)
    && (forall r, q :: r in s.owner && q in s.owner && s.owner[r] == s.owner[q] ==> r == q)
  }

  ghost predicate Inv(s: State) {
    && EveryRowAdmitted(s.db) && OneActivePerUser(s.db) && NoDanglingLink(s.db) && Accounts(s)
    && (forall id :: id in s.db.sessions && s.db.sessions[id].status == "active" ==>
          s.db.sessions[id].tokenHash in s.used)
    && DistinctBearers(s.db)
  }

  predicate SameBearer(a: SessionRow, b: SessionRow) {
    a.status == "active" && b.status == "active" && a.tokenHash == b.tokenHash
  }

  ghost predicate DistinctBearers(db: Database) {
    forall i, j | i in db.sessions && j in db.sessions && SameBearer(db.sessions[i], db.sessions[j]) :: i == j
  }

  /** No row becomes active, changes hands or gains a link: all any transaction but a rotation does to sessions. */
  predicate Settles(before: map<nat, SessionRow>, after: map<nat, SessionRow>) {
    after.Keys <= before.Keys
    && forall id :: id in after ==> SettledRow(before[id], after[id])
  }

  predicate SettledRow(before: SessionRow, after: SessionRow) {
    && (SessionLifecycle(before).CheckAdmits() ==> SessionLifecycle(after).CheckAdmits())
    && (after.status == "active" ==>
          before.status == "active" && after.tokenHash == before.tokenHash && after.expiresAt == before.expiresAt)
    && (after.userId.Some? ==> after.userId == before.userId)
    && (after.status == "active" ==> after.userId == before.userId)
  }

  predicate KeepsLogins(before: map<nat, LoginRow>, after: map<nat, LoginRow>) {
    after.Keys <= before.Keys
    && forall id :: id in after ==> KeptLogin(before[id], after[id])
  }

  predicate KeptLogin(before: LoginRow, after: LoginRow) {
    && (LoginLifecycle(before).CheckAdmits() ==> LoginLifecycle(after).CheckAdmits())
    && (after.registrationId.Some? ==> after.registrationId == before.registrationId)
  }

  lemma SweepSettlesRow(row: SessionRow, now: int, policy: Policy, token: string)
    ensures SettledRow(row, SweptRow(SESSIONS, row, now, policy, token))
  {
  }

  lemma SweepKeepsLoginRow(row: LoginRow, now: int, policy: Policy, names: (string, string))
    ensures KeptLogin(row, SweptRow(LOGINS, row, now, policy, names))
  {
  }

  lemma PurgeSettles(s: State, e: Event)
    requires e.Purge?
    ensures Settles(s.db.sessions, Apply(s, e).db.sessions) && KeepsLogins(s.db.logins, Apply(s, e).db.logins)
  {
    forall id | id in s.db.sessions { SweepSettlesRow(s.db.sessions[id], s.clock, e.sessions, e.tokenNames(id)); }
    forall id | id in s.db.logins { SweepKeepsLoginRow(s.db.logins[id], s.clock, e.logins, e.loginNames(id)); }
  }

  lemma EraseSettles(s: State, e: Event)
    requires e.EraseAccount?
    ensures Settles(s.db.sessions, Apply(s, e).db.sessions) && KeepsLogins(s.db.logins, Apply(s, e).db.logins)
  {
  }

  lemma RevokedIsSettled(row: SessionRow, at: int)
    requires row.status == "active"
    ensures SettledRow(row, Revoked(row, at))
  {
  }

  lemma ResolvedIsSettled(row: SessionRow, token: string, now: int)
    ensures SettledRow(row, ResolveRow(row, token, now))
  {
  }

  lemma BearerEventsSettle(s: State, e: Event)
    requires e.Logout? || e.Resolve?
    ensures Settles(s.db.sessions, Apply(s, e).db.sessions)
  {
    var before, after := s.db.sessions, Apply(s, e).db.sessions;
    forall id | id in after ensures SettledRow(before[id], after[id]) {
      if before[id].status == "active" { RevokedIsSettled(before[id], s.clock); }
      ResolvedIsSettled(before[id], e.token, s.clock);
    }
  }

  lemma RevokeUserSettles(sessions: map<nat, SessionRow>, user: nat, at: int)
    ensures Settles(sessions, RevokeUser(sessions, user, at))
    ensures forall id :: id in sessions ==> !ActiveOf(RevokeUser(sessions, user, at)[id], user)
  {
  }

  /** Every transaction but a rotation settles sessions, never lowers the clock and keeps bearers used. */
  lemma ApplySettles(s: State, e: Event)
    requires !e.Rotate?
    ensures Settles(s.db.sessions, Apply(s, e).db.sessions)
    ensures s.clock <= Apply(s, e).clock && s.used == Apply(s, e).used
  {
    match e
    case Purge(_, _, _, _) => PurgeSettles(s, e);
    case EraseAccount(_, _, _, _) => EraseSettles(s, e);
    case Logout(_) => BearerEventsSettle(s, e);
    case Resolve(_) => BearerEventsSettle(s, e);
    case Freeze(registration) =>
      if registration in s.owner { RevokeUserSettles(s.db.sessions, s.owner[registration], s.clock); }
    case _ =>
  }

  lemma ApplyKeepsLogins(s: State, e: Event)
    requires !e.StartLogin?
    ensures KeepsLogins(s.db.logins, Apply(s, e).db.logins)
  {
    match e
    case Purge(_, _, _, _) => PurgeSettles(s, e);
    case EraseAccount(_, _, _, _) => EraseSettles(s, e);
    case ConsumeLogin(id) =>
    case _ =>
  }

  lemma SettledInvariant(s: State, e: Event)
    requires Inv(s) && !e.Rotate? && !e.StartLogin?
    ensures EveryRowAdmitted(Apply(s, e).db) && OneActivePerUser(Apply(s, e).db) && DistinctBearers(Apply(s, e).db)
  {
    ApplySettles(s, e);
    ApplyKeepsLogins(s, e);
    SettledOneActive(s.db, Apply(s, e).db);
    forall id | id in Apply(s, e).db.sessions ensures SettledRow(s.db.sessions[id], Apply(s, e).db.sessions[id]) {
    }
  }

  /** Adding one active session to a table where its user has none. */
  lemma MintKeepsOneActive(db: Database, id: nat, row: SessionRow)
    requires OneActivePerUser(db) && DistinctBearers(db) && id !in db.sessions
    requires forall i :: i in db.sessions ==> !SameActiveUser(db.sessions[i], row) && !SameBearer(db.sessions[i], row)
    ensures OneActivePerUser(db.(sessions := db.sessions[id := row]))
    ensures DistinctBearers(db.(sessions := db.sessions[id := row]))
  {
  }

  lemma SettledOneActive(before: Database, after: Database)
    requires OneActivePerUser(before) && DistinctBearers(before) && Settles(before.sessions, after.sessions)
    ensures OneActivePerUser(after) && DistinctBearers(after)
  {
  }

  /** The session a rotation mints. */
  function Minted(s: State, e: Event): SessionRow
    requires e.Rotate? && e.registration in s.owner
  {
    MintedRow(s.owner[e.registration], e.token, e.expiresAt, s.clock)
  }

  lemma RotateApplied(s: State, e: Event)
    requires e.Rotate? && Apply(s, e) != s
    ensures e.registration in s.live && e.registration in s.owner && e.id !in s.db.sessions && e.token !in s.used
    ensures s.clock < e.expiresAt
    ensures var revoked := RevokeUser(s.db.sessions, s.owner[e.registration], s.clock);
            Apply(s, e) == s.(db := s.db.(sessions := revoked[e.id := Minted(s, e)]), used := s.used + {e.token})
  {
  }

  lemma MintedIsAdmitted(s: State, e: Event)
    requires e.Rotate? && e.registration in s.owner && s.clock < e.expiresAt
    ensures SessionLifecycle(Minted(s, e)).CheckAdmits()
  {
  }

  lemma RotateKeepsRows(s: State, e: Event)
    requires Inv(s) && e.Rotate? && Apply(s, e) != s
    ensures EveryRowAdmitted(Apply(s, e).db)
  {
    RotateApplied(s, e);
    MintedIsAdmitted(s, e);
    var user := s.owner[e.registration];
    RevokeUserSettles(s.db.sessions, user, s.clock);
    var revoked := RevokeUser(s.db.sessions, user, s.clock);
    forall id | id in revoked ensures SessionLifecycle(revoked[id]).CheckAdmits() {
      assert SettledRow(s.db.sessions[id], revoked[id]);
    }
  }

  lemma RotateKeepsOneActive(s: State, e: Event)
    requires Inv(s) && e.Rotate? && Apply(s, e) != s
    ensures OneActivePerUser(Apply(s, e).db) && DistinctBearers(Apply(s, e).db)
  {
    RotateApplied(s, e);
    var user := s.owner[e.registration];
    var revoked := RevokeUser(s.db.sessions, user, s.clock);
    RevokeUserSettles(s.db.sessions, user, s.clock);
    var mid := s.db.(sessions := revoked);
    SettledOneActive(s.db, mid);
    forall id | id in revoked
      ensures !SameActiveUser(revoked[id], Minted(s, e)) && !SameBearer(revoked[id], Minted(s, e))
    {
      assert SettledRow(s.db.sessions[id], revoked[id]);
    }
    MintKeepsOneActive(mid, e.id, Minted(s, e));
  }

  lemma RotateKeepsInv(s: State, e: Event)
    requires Inv(s) && e.Rotate? && Apply(s, e) != s
    ensures Inv(Apply(s, e))
  {
    RotateKeepsRows(s, e);
    RotateKeepsOneActive(s, e);
    RotateKeepsAccounts(s, e);
    RotateKeepsBearers(s, e);
  }

  lemma RotateKeepsAccounts(s: State, e: Event)
    requires Inv(s) && e.Rotate? && Apply(s, e) != s
    ensures NoDanglingLink(Apply(s, e).db) && Accounts(Apply(s, e))
  {
    RotateApplied(s, e);
  }

  lemma RotateKeepsBearers(s: State, e: Event)
    requires Inv(s) && e.Rotate? && Apply(s, e) != s
    ensures forall id :: id in Apply(s, e).db.sessions && Apply(s, e).db.sessions[id].status == "active" ==>
              Apply(s, e).db.sessions[id].tokenHash in Apply(s, e).used
  {
    RotateApplied(s, e);
    var after := Apply(s, e).db;
    forall id | id in after.sessions && after.sessions[id].status == "active"
      ensures after.sessions[id].tokenHash in s.used + {e.token}
    {
      if id != e.id { assert s.db.sessions[id].status == "active"; }
    }
  }

  lemma AccountsKept(s: State, e: Event)
    requires Inv(s)
    ensures Accounts(Apply(s, e))
  {
  }

  lemma LinksKept(s: State, e: Event)
    requires Inv(s) && !e.Rotate? && !e.StartLogin?
    ensures NoDanglingLink(Apply(s, e).db)
  {
    ApplySettles(s, e);
    ApplyKeepsLogins(s, e);
    if e.EraseAccount? {
      EraseKeepsLinks(s, e);
    } else {
      LinksFollow(s.db, Apply(s, e).db);
    }
  }

  /** Rows that gain no link, over accounts that only grow. */
  lemma LinksFollow(before: Database, after: Database)
    requires NoDanglingLink(before)
    requires Settles(before.sessions, after.sessions) && KeepsLogins(before.logins, after.logins)
    requires before.registrations <= after.registrations && before.users <= after.users
    ensures NoDanglingLink(after)
  {
  }

  lemma EraseKeepsLinks(s: State, e: Event)
    requires NoDanglingLink(s.db) && e.EraseAccount?
    ensures NoDanglingLink(Apply(s, e).db)
  {
  }

  /** Each transaction keeps the invariant. */
  lemma ApplyKeepsInv(s: State, e: Event)
    requires Inv(s)
    ensures Inv(Apply(s, e))
  {
    if e.Rotate? {
      if Apply(s, e) != s { RotateKeepsInv(s, e); }
    } else {
      AccountsKept(s, e);
      if !e.StartLogin? {
        SettledInvariant(s, e);
        LinksKept(s, e);
        BearersKept(s, e);
      }
    }
  }

  lemma BearersKept(s: State, e: Event)
    requires Inv(s) && !e.Rotate?
    ensures forall id :: id in Apply(s, e).db.sessions && Apply(s, e).db.sessions[id].status == "active"
                         ==> Apply(s, e).db.sessions[id].tokenHash in Apply(s, e).used
  {
    ApplySettles(s, e);
    forall id | id in Apply(s, e).db.sessions ensures SettledRow(s.db.sessions[id], Apply(s, e).db.sessions[id]) {
    }
  }

  lemma {:induction false} RunKeepsInv(s: State, events: seq<Event>)
    requires Inv(s)
    ensures Inv(Run(s, events))
  {
    if events != [] {
      RunKeepsInv(s, events[..|events| - 1]);
      ApplyKeepsInv(Run(s, events[..|events| - 1]), events[|events| - 1]);
    }
  }

  /** Every state any run reaches passes the gate's re-check: rows in shape, one active session a user, no
      dangling link. */
  lemma ReachableStatesPassRecheck(events: seq<Event>)
    ensures AuthStateInvariants(Run(START, events).db) == (true, 0)
    ensures OneActivePerUser(Run(START, events).db)
  {
    RunKeepsInv(START, events);
    AuthStateInvariantsExactly(Run(START, events).db);
  }

  // ----- bearers -----

  /** The bearer with this hash still authenticates. */
  predicate Resolves(s: State, token: string) {
    exists id :: id in s.db.sessions && LiveBearer(s.db.sessions[id], token, s.clock)
  }

  predicate LiveBearer(row: SessionRow, token: string, now: int) {
    row.status == "active" && row.tokenHash == token && now < row.expiresAt
  }

  lemma ObsoleteStep(s: State, e: Event, token: string)
    requires token in s.used && !Resolves(s, token)
    ensures token in Apply(s, e).used && !Resolves(Apply(s, e), token)
  {
  }

  /** A bearer that was minted and no longer resolves never resolves again, whatever happens. */
  lemma {:induction false} ObsoleteForever(s: State, events: seq<Event>, token: string)
    requires token in s.used && !Resolves(s, token)
    ensures token in Run(s, events).used && !Resolves(Run(s, events), token)
  {
    if events != [] {
      ObsoleteForever(s, events[..|events| - 1], token);
      ObsoleteStep(Run(s, events[..|events| - 1]), events[|events| - 1], token);
    }
  }

  predicate Destructive(e: Event, registration: nat) {
    || (e.Freeze? && e.registration == registration)
    || (e.EraseAccount? && e.registration == registration)
  }

  function ActiveIds(s: State, user: nat): set<nat> {
    set id | id in s.db.sessions && ActiveOf(s.db.sessions[id], user)
  }

  /** A rotation that was not refused leaves exactly the minted session active. */
  lemma RotationReplaces(s: State, e: Event)
    requires e.Rotate? && e.registration in s.owner && Apply(s, e) != s
    ensures ActiveIds(Apply(s, e), s.owner[e.registration]) == {e.id}
    ensures Resolves(Apply(s, e), e.token)
  {
  }

  /** Freezing or erasing leaves the user no active session, and no later rotation mints one. */
  lemma DestructionEnds(s: State, e: Event, registration: nat)
    requires Inv(s) && registration in s.owner && Destructive(e, registration)
    ensures ActiveIds(Apply(s, e), s.owner[registration]) == {} && registration !in Apply(s, e).live
  {
    if e.Freeze? { RevokeUserSettles(s.db.sessions, s.owner[registration], s.clock); }
  }

  /** A logout ends its bearer. */
  lemma LogoutEnds(s: State, token: string)
    ensures !Resolves(Apply(s, Logout(token)), token)
  {
  }

  predicate Mints(s: State, e: Event) {
    e.Rotate? && e.registration in s.live && e.registration in s.owner
    && e.id !in s.db.sessions && e.token !in s.used && s.clock < e.expiresAt
  }

  lemma RotateThenLogout(s: State, rotate: Event, bearer: string)
    requires Mints(s, rotate) && bearer in s.used
    ensures var last := Apply(Apply(s, rotate), Logout(bearer));
            && ActiveIds(last, s.owner[rotate.registration]) == {rotate.id}
            && Resolves(last, rotate.token) && !Resolves(last, bearer)
  {
  }

  lemma LogoutThenRotate(s: State, rotate: Event, bearer: string)
    requires Mints(s, rotate) && bearer in s.used
    ensures var last := Apply(Apply(s, Logout(bearer)), rotate);
            && ActiveIds(last, s.owner[rotate.registration]) == {rotate.id}
            && Resolves(last, rotate.token) && !Resolves(last, bearer)
  {
  }

  /** Rotation against logout of an earlier bearer: either order ends with exactly the minted session
      active, the minted bearer good and the earlier one dead. */
  lemma RotationVersusLogout(s: State, rotate: Event, bearer: string)
    requires Mints(s, rotate) && bearer in s.used
    ensures var user := s.owner[rotate.registration];
            forall last | || last == Apply(Apply(s, rotate), Logout(bearer))
                          || last == Apply(Apply(s, Logout(bearer)), rotate) ::
              && ActiveIds(last, user) == {rotate.id}
              && Resolves(last, rotate.token) && !Resolves(last, bearer)
  {
    RotateThenLogout(s, rotate, bearer);
    LogoutThenRotate(s, rotate, bearer);
  }

  /** Rotation against freezing, anonymising or deleting the account: either order ends with no active
      session of the user; neither the minted bearer nor any bearer of the user resolves. */
  lemma RotationVersusDestruction(s: State, rotate: Event, destroy: Event, bearerId: nat)
    requires Inv(s) && Mints(s, rotate) && Destructive(destroy, rotate.registration)
    requires bearerId in s.db.sessions && ActiveOf(s.db.sessions[bearerId], s.owner[rotate.registration])
    ensures var user := s.owner[rotate.registration];
            forall last | last == Apply(Apply(s, rotate), destroy) || last == Apply(Apply(s, destroy), rotate) ::
              && ActiveIds(last, user) == {}
              && !Resolves(last, rotate.token) && !Resolves(last, s.db.sessions[bearerId].tokenHash)
  {
    RotateThenDestroy(s, rotate, destroy, bearerId);
    DestroyThenRotate(s, rotate, destroy, bearerId);
  }

  lemma RotateThenDestroy(s: State, rotate: Event, destroy: Event, bearerId: nat)
    requires Inv(s) && Mints(s, rotate) && Destructive(destroy, rotate.registration)
    requires bearerId in s.db.sessions && ActiveOf(s.db.sessions[bearerId], s.owner[rotate.registration])
    ensures var last := Apply(Apply(s, rotate), destroy);
            && ActiveIds(last, s.owner[rotate.registration]) == {}
            && !Resolves(last, rotate.token) && !Resolves(last, s.db.sessions[bearerId].tokenHash)
  {
    var minted := Apply(s, rotate);
    ApplyKeepsInv(s, rotate);
    RotateApplied(s, rotate);
    RotationReplaces(s, rotate);
    DestructionEnds(minted, destroy, rotate.registration);
    assert rotate.id in ActiveIds(minted, s.owner[rotate.registration]);
    BearersOfUserEnd(minted, destroy, rotate.id);
    RotationEndsBearers(s, rotate, bearerId);
    ObsoleteStep(minted, destroy, s.db.sessions[bearerId].tokenHash);
  }

  /** Once the account is gone the rotation is refused. */
  lemma DestroyThenRotate(s: State, rotate: Event, destroy: Event, bearerId: nat)
    requires Inv(s) && Mints(s, rotate) && Destructive(destroy, rotate.registration)
    requires bearerId in s.db.sessions && ActiveOf(s.db.sessions[bearerId], s.owner[rotate.registration])
    ensures var last := Apply(Apply(s, destroy), rotate);
            && ActiveIds(last, s.owner[rotate.registration]) == {}
            && !Resolves(last, rotate.token) && !Resolves(last, s.db.sessions[bearerId].tokenHash)
  {
    DestructionEnds(s, destroy, rotate.registration);
    BearersOfUserEnd(s, destroy, bearerId);
    NeverMinted(s, destroy, rotate.token);
    RefusedRotate(Apply(s, destroy), rotate);
  }

  lemma RefusedRotate(s: State, rotate: Event)
    requires rotate.Rotate? && rotate.registration !in s.live
    ensures Apply(s, rotate) == s
  {
  }

  lemma NeverMinted(s: State, e: Event, token: string)
    requires Inv(s) && token !in s.used && !e.Rotate?
    ensures !Resolves(Apply(s, e), token)
  {
    ApplyKeepsInv(s, e);
    ApplySettles(s, e);
  }

  lemma BearersOfUserEnd(s: State, destroy: Event, id: nat)
    requires Inv(s) && (destroy.Freeze? || destroy.EraseAccount?) && destroy.registration in s.owner
    requires id in s.db.sessions && ActiveOf(s.db.sessions[id], s.owner[destroy.registration])
    ensures !Resolves(Apply(s, destroy), s.db.sessions[id].tokenHash)
  {
    var after, bearer := Apply(s, destroy), s.db.sessions[id].tokenHash;
    DestructionEnds(s, destroy, destroy.registration);
    ApplySettles(s, destroy);
    forall i | i in after.db.sessions
      ensures !LiveBearer(after.db.sessions[i], bearer, after.clock)
    {
      assert SettledRow(s.db.sessions[i], after.db.sessions[i]);
      if i != id {
        assert !SameBearer(s.db.sessions[i], s.db.sessions[id]);
      } else {
        assert i !in ActiveIds(after, s.owner[destroy.registration]);
      }
    }
  }

  lemma RotationEndsBearers(s: State, rotate: Event, id: nat)
    requires DistinctBearers(s.db) && Mints(s, rotate)
    requires id in s.db.sessions && ActiveOf(s.db.sessions[id], s.owner[rotate.registration])
    requires s.db.sessions[id].tokenHash in s.used
    ensures !Resolves(Apply(s, rotate), s.db.sessions[id].tokenHash)
  {
  }

  // ----- retention -----

  /** Expiry against resolution of an expired bearer: in either order the row ends expired at its own
      expiry, the user has no active session and the bearer does not resolve. The policy must not erase
      the row in the same pass. */
  lemma ExpiryVersusResolve(s: State, purge: Event, user: nat, id: nat)
    requires Inv(s) && purge.Purge? && id in s.db.sessions && ActiveOf(s.db.sessions[id], user)
    requires s.db.sessions[id].expiresAt <= s.clock
    requires !Stale(SESSIONS, s.db.sessions[id], s.clock, purge.sessions)
    ensures var row := s.db.sessions[id];
            var resolve := Resolve(row.tokenHash);
            forall last | last == Apply(Apply(s, purge), resolve) || last == Apply(Apply(s, resolve), purge) ::
              && id in last.db.sessions
              && last.db.sessions[id] == row.(status := "expired", revokedAt := Some(row.expiresAt))
              && ActiveIds(last, user) == {} && !Resolves(last, row.tokenHash)
  {
    var row := s.db.sessions[id];
    var resolve := Resolve(row.tokenHash);
    ExpiryClosesRow(s, purge, id);
    ResolveClosesRow(s, id);
    CloseThenRest(s, purge, resolve, user, id);
    ClosedIsAsStale(row, s.clock, purge.sessions);
    CloseThenRest(s, resolve, purge, user, id);
  }

  lemma ClosedIsAsStale(row: SessionRow, now: int, policy: Policy)
    requires row.status == "active" && row.expiresAt <= now
    ensures Stale(SESSIONS, SESSIONS.expire(row), now, policy) <==> Stale(SESSIONS, row, now, policy)
  {
  }

  /** The first transaction closes the user's one active session; the second finds nothing to do for it. */
  lemma CloseThenRest(s: State, first: Event, second: Event, user: nat, id: nat)
    requires OneActivePerUser(s.db) && DistinctBearers(s.db) && !first.Rotate? && (second.Purge? || second.Resolve?)
    requires id in s.db.sessions && ActiveOf(s.db.sessions[id], user)
    requires id in Apply(s, first).db.sessions && ExpiredFrom(s.db.sessions[id], Apply(s, first).db.sessions[id])
    requires second.Purge? ==> !Stale(SESSIONS, Apply(s, first).db.sessions[id], Apply(s, first).clock, second.sessions)
    ensures var last := Apply(Apply(s, first), second);
            && id in last.db.sessions && ExpiredFrom(s.db.sessions[id], last.db.sessions[id])
            && ActiveIds(last, user) == {} && !Resolves(last, s.db.sessions[id].tokenHash)
  {
    ClosedStaysClosed(s, first, user, id);
    ClosedRowRests(Apply(s, first), second, id);
    NoneStaysNone(Apply(s, first), second, user, s.db.sessions[id].tokenHash);
  }

  /** The row of an expired session. */
  predicate ExpiredFrom(row: SessionRow, after: SessionRow) {
    after == row.(status := "expired", revokedAt := Some(row.expiresAt))
  }

  lemma ExpiryClosesRow(s: State, purge: Event, id: nat)
    requires purge.Purge? && id in s.db.sessions && s.db.sessions[id].status == "active"
    requires s.db.sessions[id].expiresAt <= s.clock
    requires !Stale(SESSIONS, s.db.sessions[id], s.clock, purge.sessions)
    ensures id in Apply(s, purge).db.sessions && ExpiredFrom(s.db.sessions[id], Apply(s, purge).db.sessions[id])
  {
  }

  lemma ResolveClosesRow(s: State, id: nat)
    requires id in s.db.sessions && s.db.sessions[id].status == "active" && s.db.sessions[id].expiresAt <= s.clock
    ensures var after := Apply(s, Resolve(s.db.sessions[id].tokenHash));
            && id in after.db.sessions && ExpiredFrom(s.db.sessions[id], after.db.sessions[id])
            && after.clock == s.clock
  {
  }

  /** The user's one active session is closed, so none is active. */
  lemma ClosedStaysClosed(s: State, e: Event, user: nat, id: nat)
    requires OneActivePerUser(s.db) && DistinctBearers(s.db) && !e.Rotate?
    requires id in s.db.sessions && ActiveOf(s.db.sessions[id], user)
    requires id in Apply(s, e).db.sessions && Apply(s, e).db.sessions[id].status != "active"
    ensures ActiveIds(Apply(s, e), user) == {}
    ensures forall i :: i in Apply(s, e).db.sessions && Apply(s, e).db.sessions[i].status == "active" ==>
              Apply(s, e).db.sessions[i].tokenHash != s.db.sessions[id].tokenHash
  {
    ApplySettles(s, e);
    var after := Apply(s, e).db.sessions;
    forall i | i in after && after[i].status == "active"
      ensures after[i].userId != Some(user) && after[i].tokenHash != s.db.sessions[id].tokenHash
    {
      assert SettledRow(s.db.sessions[i], after[i]);
      assert i != id;
      assert !SameActiveUser(s.db.sessions[i], s.db.sessions[id]) && !SameBearer(s.db.sessions[i], s.db.sessions[id]);
    }
  }

  /** A closed row that the policy keeps is not touched again by a purge or a resolution. */
  lemma ClosedRowRests(s: State, e: Event, id: nat)
    requires e.Purge? || e.Resolve?
    requires id in s.db.sessions && s.db.sessions[id].status == "expired"
    requires e.Purge? ==> !Stale(SESSIONS, s.db.sessions[id], s.clock, e.sessions)
    ensures id in Apply(s, e).db.sessions && Apply(s, e).db.sessions[id] == s.db.sessions[id]
  {
  }

  lemma NoneStaysNone(s: State, e: Event, user: nat, token: string)
    requires !e.Rotate? && ActiveIds(s, user) == {}
    requires forall i :: i in s.db.sessions && s.db.sessions[i].status == "active" ==>
               s.db.sessions[i].tokenHash != token
    ensures ActiveIds(Apply(s, e), user) == {} && !Resolves(Apply(s, e), token)
  {
    ApplySettles(s, e);
    var after := Apply(s, e).db.sessions;
    forall i | i in after && after[i].status == "active"
      ensures after[i].userId != Some(user) && after[i].tokenHash != token
    {
      assert SettledRow(s.db.sessions[i], after[i]);
      assert i !in ActiveIds(s, user);
    }
  }

  // ----- verification against retention -----

  /** The transaction brings its own clock reading. */
  function At(s: State, now: int): State { s.(clock := now) }

  /** A right code, for an attempt that is pending and not expired, with a session that can be minted. */
  predicate MayVerify(s: State, attempt: nat, rotate: Event) {
    && attempt in s.db.logins && s.db.logins[attempt].status == "pending" && s.clock < s.db.logins[attempt].expiresAt
    && Mints(s, rotate) && s.db.logins[attempt].registrationId == Some(rotate.registration)
  }

  /** Verifying consumes the attempt and mints the session in one transaction, or is rejected. */
  function Verify(s: State, attempt: nat, rotate: Event): State {
    if MayVerify(s, attempt, rotate) then Apply(Apply(s, ConsumeLogin(attempt)), rotate) else s
  }

  lemma VerifyKeepsInv(s: State, attempt: nat, rotate: Event)
    requires Inv(s)
    ensures Inv(Verify(s, attempt, rotate))
  {
    ApplyKeepsInv(s, ConsumeLogin(attempt));
    ApplyKeepsInv(Apply(s, ConsumeLogin(attempt)), rotate);
  }

  /** Both transactions, in either order, each with its own clock reading. */
  function VerifyRace(s: State, attempt: nat, rotate: Event, verifyNow: int, purge: Event, purgeNow: int,
                      verifyFirst: bool): State
  {
    if verifyFirst then Apply(At(Verify(At(s, verifyNow), attempt, rotate), purgeNow), purge)
    else Verify(At(Apply(At(s, purgeNow), purge), verifyNow), attempt, rotate)
  }

  /** Whatever order and times the race has, what it leaves passes the gate's re-check. */
  lemma VerifyRacePassesRecheck(s: State, attempt: nat, rotate: Event, verifyNow: int, purge: Event, purgeNow: int,
                                verifyFirst: bool)
    requires Inv(s)
    ensures var t := VerifyRace(s, attempt, rotate, verifyNow, purge, purgeNow, verifyFirst);
            AuthStateInvariants(t.db) == (true, 0) && OneActivePerUser(t.db)
  {
    if verifyFirst {
      ClockKeepsInv(s, verifyNow);
      var mid := Verify(At(s, verifyNow), attempt, rotate);
      VerifyKeepsInv(At(s, verifyNow), attempt, rotate);
      ClockKeepsInv(mid, purgeNow);
      ApplyKeepsInv(At(mid, purgeNow), purge);
    } else {
      ClockKeepsInv(s, purgeNow);
      var mid := Apply(At(s, purgeNow), purge);
      ApplyKeepsInv(At(s, purgeNow), purge);
      ClockKeepsInv(mid, verifyNow);
      VerifyKeepsInv(At(mid, verifyNow), attempt, rotate);
    }
    AuthStateInvariantsExactly(VerifyRace(s, attempt, rotate, verifyNow, purge, purgeNow, verifyFirst).db);
  }

  /** The attempt is consumed and the user has exactly the minted session. */
  predicate VerifyWon(s: State, t: State, attempt: nat, rotate: Event, verifyNow: int)
    requires attempt in s.db.logins && rotate.Rotate? && rotate.registration in s.owner
  {
    && attempt in t.db.logins && t.db.logins[attempt] == Consumed(s.db.logins[attempt], verifyNow)
    && ActiveIds(t, s.owner[rotate.registration]) == {rotate.id} && Resolves(t, rotate.token)
  }

  /** The attempt is expired at its own expiry, or pending if that has not come, and nothing was minted. */
  predicate VerifyLost(s: State, t: State, attempt: nat, rotate: Event, purgeNow: int)
    requires attempt in s.db.logins && rotate.Rotate? && rotate.registration in s.owner
  {
    && attempt in t.db.logins && t.db.logins[attempt] == Closed(LOGINS, s.db.logins[attempt], purgeNow)
    && ActiveIds(t, s.owner[rotate.registration]) <= ActiveIds(s, s.owner[rotate.registration])
    && t.used == s.used && t.db.sessions.Keys <= s.db.sessions.Keys && !Resolves(t, rotate.token)
  }

  lemma VerifyMints(s: State, attempt: nat, rotate: Event)
    requires MayVerify(s, attempt, rotate)
    ensures var t := Verify(s, attempt, rotate);
            && VerifyWon(s, t, attempt, rotate, s.clock)
            && rotate.id in t.db.sessions && t.db.sessions[rotate.id] == Minted(s, rotate)
  {
    var mid := Apply(s, ConsumeLogin(attempt));
    RotateApplied(mid, rotate);
    RotationReplaces(mid, rotate);
  }

  lemma PurgeOfAttempt(s: State, attempt: nat, purge: Event)
    requires purge.Purge? && attempt in s.db.logins && !Stale(LOGINS, s.db.logins[attempt], s.clock, purge.logins)
    ensures var after := Apply(s, purge).db.logins;
            attempt in after && after[attempt] == Closed(LOGINS, s.db.logins[attempt], s.clock)
  {
  }

  lemma PurgeFrame(s: State, purge: Event)
    requires purge.Purge?
    ensures var t := Apply(s, purge);
            && t.owner == s.owner && t.live == s.live && t.used == s.used && t.clock == s.clock
            && t.db.sessions.Keys <= s.db.sessions.Keys
  {
  }

  lemma PurgeKeepsLive(s: State, purge: Event, id: nat)
    requires purge.Purge? && id in s.db.sessions && s.db.sessions[id].status == "active"
    requires s.clock < s.db.sessions[id].expiresAt
    ensures id in Apply(s, purge).db.sessions && Apply(s, purge).db.sessions[id] == s.db.sessions[id]
  {
  }

  lemma PurgeShrinksActive(s: State, purge: Event, user: nat)
    requires purge.Purge?
    ensures ActiveIds(Apply(s, purge), user) <= ActiveIds(s, user)
  {
    PurgeSettles(s, purge);
  }

  /** Retention after a verification leaves the consumed attempt and the live session. */
  lemma PurgeAfterVerify(s: State, t: State, attempt: nat, rotate: Event, verifyNow: int, purge: Event)
    requires attempt in s.db.logins && rotate.Rotate? && rotate.registration in s.owner && purge.Purge?
    requires VerifyWon(s, t, attempt, rotate, verifyNow)
    requires rotate.id in t.db.sessions && t.db.sessions[rotate.id].tokenHash == rotate.token
    requires t.clock < t.db.sessions[rotate.id].expiresAt
    requires !Stale(LOGINS, Consumed(s.db.logins[attempt], verifyNow), t.clock, purge.logins)
    ensures VerifyWon(s, Apply(t, purge), attempt, rotate, verifyNow)
  {
    var user, last := s.owner[rotate.registration], Apply(t, purge);
    assert rotate.id in ActiveIds(t, user);
    PurgeOfAttempt(t, attempt, purge);
    PurgeFrame(t, purge);
    PurgeKeepsLive(t, purge, rotate.id);
    PurgeShrinksActive(t, purge, user);
    assert rotate.id in ActiveIds(last, user);
    assert LiveBearer(last.db.sessions[rotate.id], rotate.token, last.clock);
  }

  lemma PurgeLeavesNothingMinted(s: State, attempt: nat, rotate: Event, purge: Event)
    requires Inv(s) && attempt in s.db.logins && rotate.Rotate? && rotate.registration in s.owner && purge.Purge?
    requires rotate.token !in s.used && !Stale(LOGINS, s.db.logins[attempt], s.clock, purge.logins)
    ensures VerifyLost(s, Apply(s, purge), attempt, rotate, s.clock)
  {
    PurgeOfAttempt(s, attempt, purge);
    PurgeFrame(s, purge);
    PurgeShrinksActive(s, purge, s.owner[rotate.registration]);
    NeverMinted(s, purge, rotate.token);
  }

  lemma ClockKeepsInv(s: State, now: int)
    requires Inv(s)
    ensures Inv(At(s, now))
  {
  }

  lemma NotUsedNotResolved(s: State, token: string)
    requires Inv(s) && token !in s.used
    ensures !Resolves(s, token)
  {
  }

  /** Retention against the verification of a pending attempt, in either order and each at its own time:
      exactly one wins. Verification wins exactly when the attempt has not expired at its time and
      retention has not closed it first: the attempt is consumed and the user has exactly the minted
      session, alive. Otherwise nothing is minted, and the attempt is expired once retention saw its
      expiry. The policy erases neither outcome in the same pass, and the session outlives it. */
  lemma VerifyVersusRetention(s: State, attempt: nat, rotate: Event, verifyNow: int, purge: Event, purgeNow: int,
                              verifyFirst: bool)
    requires Inv(s) && attempt in s.db.logins && s.db.logins[attempt].status == "pending" && purge.Purge?
    requires Mints(At(s, verifyNow), rotate) && s.db.logins[attempt].registrationId == Some(rotate.registration)
    requires purgeNow < rotate.expiresAt
    requires !Stale(LOGINS, s.db.logins[attempt], purgeNow, purge.logins)
    requires !Stale(LOGINS, Consumed(s.db.logins[attempt], verifyNow), purgeNow, purge.logins)
    ensures var t := VerifyRace(s, attempt, rotate, verifyNow, purge, purgeNow, verifyFirst);
            var expiry := s.db.logins[attempt].expiresAt;
            if verifyNow < expiry && (verifyFirst || purgeNow < expiry) then VerifyWon(s, t, attempt, rotate, verifyNow)
            else VerifyLost(s, t, attempt, rotate, purgeNow)
  {
    if verifyFirst {
      VerifyThenPurge(s, attempt, rotate, verifyNow, purge, purgeNow);
    } else {
      PurgeThenVerify(s, attempt, rotate, verifyNow, purge, purgeNow);
    }
  }

  lemma VerifyThenPurge(s: State, attempt: nat, rotate: Event, verifyNow: int, purge: Event, purgeNow: int)
    requires Inv(s) && attempt in s.db.logins && s.db.logins[attempt].status == "pending" && purge.Purge?
    requires Mints(At(s, verifyNow), rotate) && s.db.logins[attempt].registrationId == Some(rotate.registration)
    requires purgeNow < rotate.expiresAt
    requires !Stale(LOGINS, s.db.logins[attempt], purgeNow, purge.logins)
    requires !Stale(LOGINS, Consumed(s.db.logins[attempt], verifyNow), purgeNow, purge.logins)
    ensures var t := VerifyRace(s, attempt, rotate, verifyNow, purge, purgeNow, true);
            if verifyNow < s.db.logins[attempt].expiresAt then VerifyWon(s, t, attempt, rotate, verifyNow)
            else VerifyLost(s, t, attempt, rotate, purgeNow)
  {
    var start := At(s, verifyNow);
    var mid := At(Verify(start, attempt, rotate), purgeNow);
    if verifyNow < s.db.logins[attempt].expiresAt {
      VerifyMints(start, attempt, rotate);
      assert LiveBearer(mid.db.sessions[rotate.id], rotate.token, purgeNow);
      PurgeAfterVerify(s, mid, attempt, rotate, verifyNow, purge);
    } else {
      ClockKeepsInv(s, purgeNow);
      assert mid == At(s, purgeNow);
      PurgeLeavesNothingMinted(mid, attempt, rotate, purge);
    }
  }

  lemma PurgeThenVerify(s: State, attempt: nat, rotate: Event, verifyNow: int, purge: Event, purgeNow: int)
    requires Inv(s) && attempt in s.db.logins && s.db.logins[attempt].status == "pending" && purge.Purge?
    requires Mints(At(s, verifyNow), rotate) && s.db.logins[attempt].registrationId == Some(rotate.registration)
    requires !Stale(LOGINS, s.db.logins[attempt], purgeNow, purge.logins)
    ensures var t := VerifyRace(s, attempt, rotate, verifyNow, purge, purgeNow, false);
            var expiry := s.db.logins[attempt].expiresAt;
            if verifyNow < expiry && purgeNow < expiry then VerifyWon(s, t, attempt, rotate, verifyNow)
            else VerifyLost(s, t, attempt, rotate, purgeNow)
  {
    var start := At(s, purgeNow);
    ClockKeepsInv(s, purgeNow);
    PurgeLeavesNothingMinted(start, attempt, rotate, purge);
    ApplyKeepsInv(start, purge);
    PurgeFrame(start, purge);
    var mid := At(Apply(start, purge), verifyNow);
    ClockKeepsInv(Apply(start, purge), verifyNow);
    if verifyNow < s.db.logins[attempt].expiresAt && purgeNow < s.db.logins[attempt].expiresAt {
      VerifyMints(mid, attempt, rotate);
    } else {
      assert Verify(mid, attempt, rotate) == mid;
      NotUsedNotResolved(mid, rotate.token);
    }
  }

  /** The aggregate counts of one pass; an audit event is written only when some count is positive. */
  datatype Counts = Counts(expiredSessions: nat, expiredAttempts: nat, loginAttempts: nat, authSessions: nat)

  function PurgeCounts(db: Database, now: int, e: Event): Counts
    requires e.Purge?
  {
    Counts(|ExpiredIds(SESSIONS, db.sessions, now)|, |ExpiredIds(LOGINS, db.logins, now)|,
           |ErasedIds(LOGINS, db.logins, now, e.logins)|, |ErasedIds(SESSIONS, db.sessions, now, e.sessions)|)
  }

  function Add(a: Counts, b: Counts): Counts {
    Counts(a.expiredSessions + b.expiredSessions, a.expiredAttempts + b.expiredAttempts,
           a.loginAttempts + b.loginAttempts, a.authSessions + b.authSessions)
  }

  /** The database with every placeholder hidden. */
  function Nameless(db: Database): Database {
    db.(logins := Blank(LOGINS, db.logins), sessions := Blank(SESSIONS, db.sessions))
  }

  predicate SamePolicy(a: Event, b: Event) {
    a.Purge? && b.Purge? && a.logins == b.logins && a.sessions == b.sessions
  }

  /** Repeating a purge under the same policy at the same time changes no row and reports nothing. */
  lemma PurgeTwice(db: Database, now: int, first: Event, second: Event)
    requires SamePolicy(first, second)
    ensures Purged(Purged(db, now, first), now, second) == Purged(db, now, first)
    ensures PurgeCounts(Purged(db, now, first), now, second) == Counts(0, 0, 0, 0)
  {
    KindsAreLawful();
    SweepTwice(SESSIONS, db.sessions, now, first.sessions, first.tokenNames, second.tokenNames);
    SweepTwice(LOGINS, db.logins, now, first.logins, first.loginNames, second.loginNames);
  }

  lemma SessionsCompose(table: map<nat, SessionRow>, t1: int, t2: int, policy: Policy,
                        first: nat -> string, second: nat -> string, direct: nat -> string)
    requires t1 <= t2
    ensures Composes(SESSIONS, table, t1, t2, policy, first, second, direct)
  {
    KindsAreLawful();
    SweepComposes(SESSIONS, table, t1, t2, policy, first, second, direct);
  }

  lemma LoginsCompose(table: map<nat, LoginRow>, t1: int, t2: int, policy: Policy, first: nat -> (string, string),
                      second: nat -> (string, string), direct: nat -> (string, string))
    requires t1 <= t2
    ensures Composes(LOGINS, table, t1, t2, policy, first, second, direct)
  {
    KindsAreLawful();
    SweepComposes(LOGINS, table, t1, t2, policy, first, second, direct);
  }

  /** A purge at t1 and one at t2 >= t1 leave what the later one alone leaves, placeholders aside, and
      their counts add up to its counts. */
  lemma PurgeComposes(db: Database, t1: int, t2: int, first: Event, second: Event, direct: Event)
    requires t1 <= t2 && SamePolicy(first, second) && SamePolicy(first, direct)
    ensures var once := Purged(db, t1, first);
            && Nameless(Purged(once, t2, second)) == Nameless(Purged(db, t2, direct))
            && PurgeCounts(db, t2, direct) == Add(PurgeCounts(db, t1, first), PurgeCounts(once, t2, second))
  {
    SessionsCompose(db.sessions, t1, t2, first.sessions, first.tokenNames, second.tokenNames, direct.tokenNames);
    LoginsCompose(db.logins, t1, t2, first.logins, first.loginNames, second.loginNames, direct.loginNames);
  }
}
