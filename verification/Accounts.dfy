/** Accounts, fleet owners and sessions (backend/internal/store/users.go,
    backend/internal/store/sessions.go). Tokens stand for their hashes. */
module Accounts {
  import opened Text
  import opened Wrappers
  import opened Timestamps

  datatype User = User(username: string, passwordHash: string, fleetOwner: bool, disabled: bool, createdAt: string)

  datatype Session = Session(csrf: string, userId: string, createdAt: string, authenticatedAt: string,
                             expiresAt: string, revokedAt: Option<string>)

  /** The tables; `grants` holds each user's role on the adopted server. */
  datatype Database = Database(users: map<string, User>, grants: map<string, string>, sessions: map<string, Session>)

  datatype Op =
    | CreateInitialUser(id: string, user: User, role: string)
    | CreateUser(id: string, user: User, role: string)
    | SetFleetOwner(id: string, owner: bool)
    | DisableUser(id: string, now: Civil)
    | CreateSession(token: string, userId: string, csrf: string, created: Civil, authenticated: Option<Civil>,
                    expires: Civil)
    | Reauthenticate(token: string, now: Civil)
    | RevokeSession(token: string, now: Civil)
    | RevokeUserSessions(userId: string, now: Civil)
    | PurgeExpired(now: Civil)

  datatype Outcome = Done | NotFound | AlreadyExists | LastFleetOwner | Rejected

  // ---- the queries ----

  /** Equality under SQLite's NOCASE collation. */
  predicate SameName(a: string, b: string) {
    |a| == |b| && forall i | 0 <= i < |a| :: LowerChar(a[i]) == LowerChar(b[i])
  }

  function ActiveOwners(users: map<string, User>): set<string> {
    set id | id in users && users[id].fleetOwner && !users[id].disabled
  }

  predicate NameTaken(users: map<string, User>, name: string) {
    exists id :: id in users && SameName(users[id].username, name)
  }

  /** A session no one has revoked that expires after `now`, as strings compare. */
  predicate Open(s: Session, now: Civil) {
    s.revokedAt.None? && Less(FormatTime(now), s.expiresAt)
  }

  function RevokeWhere(sessions: map<string, Session>, userId: string, now: Civil): map<string, Session> {
    map t | t in sessions ::
      if sessions[t].userId == userId && sessions[t].revokedAt.None?
      then sessions[t].(revokedAt := Some(FormatTime(now))) else sessions[t]
  }

  // ---- one transaction ----

  function InsertUser(db: Database, id: string, user: User, role: string): (Database, Outcome) {
    if id in db.users || NameTaken(db.users, user.username) || id in db.grants then (db, AlreadyExists)
    else (db.(users := db.users[id := user.(disabled := false)], grants := db.grants[id := role]), Done)
  }

  function Apply(db: Database, op: Op): (Database, Outcome) {
    match op
    case CreateInitialUser(id, user, role) =>
      if |db.users| != 0 then (db, AlreadyExists) else InsertUser(db, id, user, role)
    case CreateUser(id, user, role) => InsertUser(db, id, user, role)
    case SetFleetOwner(id, owner) =>
      if id !in db.users || (owner && db.users[id].disabled) then (db, NotFound)
      else if db.users[id].fleetOwner && !owner && !db.users[id].disabled && |ActiveOwners(db.users)| <= 1
      then (db, LastFleetOwner)
      else (db.(users := db.users[id := db.users[id].(fleetOwner := owner)]), Done)
    case DisableUser(id, now) =>
      if id !in db.users then (db, NotFound)
      else if db.users[id].disabled then (db, Done)
      else if db.users[id].fleetOwner && |ActiveOwners(db.users)| <= 1 then (db, LastFleetOwner)
      else (db.(users := db.users[id := db.users[id].(disabled := true)],
                sessions := RevokeWhere(db.sessions, id, now)), Done)
    case CreateSession(token, userId, csrf, created, authenticated, expires) =>
      if token in db.sessions || userId !in db.users then (db, Rejected)
      else
        var at := FormatTime(if authenticated.Some? then authenticated.value else created);
        var session := Session(csrf, userId, FormatTime(created), at, FormatTime(expires), None);
        (db.(sessions := db.sessions[token := session]), Done)
    case Reauthenticate(token, now) =>
      if token in db.sessions && Open(db.sessions[token], now)
      then (db.(sessions := db.sessions[token := db.sessions[token].(authenticatedAt := FormatTime(now))]), Done)
      else (db, NotFound)
    case RevokeSession(token, now) =>
      if token in db.sessions && db.sessions[token].revokedAt.None?
      then (db.(sessions := db.sessions[token := db.sessions[token].(revokedAt := Some(FormatTime(now)))]), Done)
      else (db, Done)
    case RevokeUserSessions(userId, now) => (db.(sessions := RevokeWhere(db.sessions, userId, now)), Done)
    case PurgeExpired(now) =>
      (db.(sessions := map t | t in db.sessions &&
             !(Less(db.sessions[t].expiresAt, FormatTime(now)) || db.sessions[t].revokedAt.Some?) :: db.sessions[t]),
       Done)
  }

  /** `SessionByToken`: who a token authenticates. */
  function SessionByToken(db: Database, token: string, now: Civil): Option<(Session, User)> {
    if token in db.sessions && Open(db.sessions[token], now) && db.sessions[token].userId in db.users &&
       !db.users[db.sessions[token].userId].disabled
    then Some((db.sessions[token], db.users[db.sessions[token].userId]))
    else None
  }

  // ---- the transactions, field by field ----

  ghost predicate Alike(a: string, b: string) {
    |a| == |b| && forall i | 0 <= i < |a| :: SameLetter(a[i], b[i])
  }

  /** Nobody has the identifier, or the name in whatever letters. */
  ghost predicate Free(db: Database, id: string, name: string) {
    id !in db.users && id !in db.grants && forall k | k in db.users :: !Alike(db.users[k].username, name)
  }

  /** The account is there, enabled and otherwise as given, with its role; nothing else changed. */
  ghost predicate Added(db: Database, after: Database, id: string, user: User, role: string) {
    && after.users.Keys == db.users.Keys + {id} && after.grants.Keys == db.grants.Keys + {id}
    && after.users[id].username == user.username && after.users[id].passwordHash == user.passwordHash
    && after.users[id].fleetOwner == user.fleetOwner && !after.users[id].disabled
    && after.users[id].createdAt == user.createdAt && after.grants[id] == role
    && (forall k | k in db.users && k != id :: after.users[k] == db.users[k])
    && (forall k | k in db.grants && k != id :: after.grants[k] == db.grants[k])
    && after.sessions == db.sessions
  }

  /** An active fleet owner, and no one else is. */
  ghost predicate OnlyOwner(users: map<string, User>, id: string) {
    && id in users && users[id].fleetOwner && !users[id].disabled
    && forall k | k in users && users[k].fleetOwner && !users[k].disabled :: k == id
  }

  lemma FreeMeans(db: Database, id: string, name: string)
    ensures Free(db, id, name) <==> !(id in db.users || NameTaken(db.users, name) || id in db.grants)
  {
    forall k | k in db.users
      ensures SameName(db.users[k].username, name) <==> Alike(db.users[k].username, name)
    {
      SameNameMeans(db.users[k].username, name);
    }
    hide SameName, Alike;
  }

  lemma SameNameMeans(a: string, b: string)
    ensures SameName(a, b) <==> Alike(a, b)
  {
    if |a| == |b| {
      forall i | 0 <= i < |a|
        ensures LowerChar(a[i]) == LowerChar(b[i]) <==> SameLetter(a[i], b[i])
      {
        LowerAgrees(a[i], b[i]);
      }
      hide LowerChar, SameLetter;
    }
  }

  lemma OnlyOwnerMeans(users: map<string, User>, id: string)
    requires id in users
    ensures OnlyOwner(users, id) <==> users[id].fleetOwner && !users[id].disabled && |ActiveOwners(users)| <= 1
  {
    var owners := ActiveOwners(users);
    assert forall k :: k in owners <==> k in users && users[k].fleetOwner && !users[k].disabled;
    if id in owners {
      AtMostOne(owners, id);
    }
  }

  lemma AtMostOne<T>(s: set<T>, x: T)
    requires x in s
    ensures |s| <= 1 <==> forall y | y in s :: y == x
  {
    var rest := s - {x};
    assert s == {x} + rest && |s| == 1 + |rest|;
    if |s| <= 1 {
      assert rest == {};
      assert s == {x};
    } else {
      var y :| y in rest;
      assert y in s && y != x;
    }
  }

  class Store {
    var users: map<string, User>
    var grants: map<string, string>
    var sessions: map<string, Session>

    function Value(): Database
      reads this
    {
      Database(users, grants, sessions)
    }

    constructor ()
      ensures Value() == Database(map[], map[], map[])
    {
      users, grants, sessions := map[], map[], map[];
    }

    /** Both inserts or neither. */
    method Insert(id: string, user: User, role: string) returns (outcome: Outcome)
      modifies this
      ensures (Value(), outcome) == InsertUser(old(Value()), id, user, role)
      ensures outcome == if Free(old(Value()), id, user.username) then Done else AlreadyExists
      ensures outcome.Done? ==> Added(old(Value()), Value(), id, user, role)
      ensures !outcome.Done? ==> Value() == old(Value())
    {
      FreeMeans(Value(), id, user.username);
      hide NameTaken, Free;
      if id in users || NameTaken(users, user.username) || id in grants {
        return AlreadyExists;
      }
      users := users[id := user.(disabled := false)];
      grants := grants[id := role];
      return Done;
    }

    method CreateInitial(id: string, user: User, role: string) returns (outcome: Outcome)
      modifies this
      ensures (Value(), outcome) == Apply(old(Value()), CreateInitialUser(id, user, role))
      ensures outcome.Done? <==> old(users) == map[] && Free(old(Value()), id, user.username)
      ensures outcome.Done? ==> Added(old(Value()), Value(), id, user, role)
      ensures !outcome.Done? ==> outcome.AlreadyExists? && Value() == old(Value())
    {
      hide NameTaken, Free, Added;
      if |users| != 0 {
        return AlreadyExists;
      }
      outcome := Insert(id, user, role);
    }

    method SetOwner(id: string, owner: bool) returns (outcome: Outcome)
      modifies this
      ensures (Value(), outcome) == Apply(old(Value()), SetFleetOwner(id, owner))
      ensures outcome.NotFound? <==> id !in old(users) || (owner && old(users)[id].disabled)
      ensures outcome.LastFleetOwner? <==> !owner && OnlyOwner(old(users), id)
      ensures outcome.NotFound? || outcome.LastFleetOwner? || outcome.Done?
      ensures !outcome.Done? ==> Value() == old(Value())
      ensures outcome.Done? ==>
        && grants == old(grants) && sessions == old(sessions) && users.Keys == old(users.Keys)
        && users[id].fleetOwner == owner && users[id].(fleetOwner := old(users)[id].fleetOwner) == old(users)[id]
        && forall k | k in users && k != id :: users[k] == old(users)[k]
    {
      if id in users {
        OnlyOwnerMeans(users, id);
      }
      hide OnlyOwner, ActiveOwners;
      if id !in users {
        return NotFound;
      }
      var current, disabled := users[id].fleetOwner, users[id].disabled;
      if owner && disabled {
        return NotFound;
      }
      if current && !owner && !disabled {
        if |ActiveOwners(users)| <= 1 {
          return LastFleetOwner;
        }
      }
      users := users[id := users[id].(fleetOwner := owner)];
      return Done;
    }

    method Disable(id: string, now: Civil) returns (outcome: Outcome)
      modifies this
      ensures (Value(), outcome) == Apply(old(Value()), DisableUser(id, now))
      ensures outcome.NotFound? <==> id !in old(users)
      ensures outcome.LastFleetOwner? <==> OnlyOwner(old(users), id)
      ensures outcome.NotFound? || outcome.LastFleetOwner? || outcome.Done?
      ensures !outcome.Done? ==> Value() == old(Value())
      ensures outcome.Done? ==>
        && grants == old(grants) && users.Keys == old(users.Keys)
        && users[id].disabled && users[id].(disabled := old(users)[id].disabled) == old(users)[id]
        && forall k | k in users && k != id :: users[k] == old(users)[k]
    {
      if id in users {
        OnlyOwnerMeans(users, id);
      }
      hide OnlyOwner, ActiveOwners, RevokeWhere;
      if id !in users {
        return NotFound;
      }
      if users[id].disabled {
        return Done;
      }
      if users[id].fleetOwner {
        if |ActiveOwners(users)| <= 1 {
          return LastFleetOwner;
        }
      }
      users := users[id := users[id].(disabled := true)];
      sessions := RevokeWhere(sessions, id, now);
      return Done;
    }

    method CreateFor(token: string, userId: string, csrf: string, created: Civil, authenticated: Option<Civil>,
                     expires: Civil)
      returns (outcome: Outcome)
      modifies this
      ensures (Value(), outcome) ==
              Apply(old(Value()), CreateSession(token, userId, csrf, created, authenticated, expires))
      ensures outcome.Done? <==> token !in old(sessions) && userId in old(users)
      ensures users == old(users) && forall t | t in old(sessions) :: t in sessions && sessions[t] == old(sessions)[t]
      ensures sessions.Keys == old(sessions.Keys) + (if outcome.Done? then {token} else {})
    {
      var at := authenticated;
      if at.None? {
        at := Some(created);
      }
      if token in sessions || userId !in users {
        return Rejected;
      }
      sessions := sessions[token := Session(csrf, userId, FormatTime(created), FormatTime(at.value),
                                            FormatTime(expires), None)];
      return Done;
    }

    method Renew(token: string, now: Civil) returns (outcome: Outcome)
      modifies this
      ensures (Value(), outcome) == Apply(old(Value()), Reauthenticate(token, now))
    {
      var count := 0;
      if token in sessions && Open(sessions[token], now) {
        sessions := sessions[token := sessions[token].(authenticatedAt := FormatTime(now))];
        count := count + 1;
      }
      outcome := if count == 0 then NotFound else Done;
    }

    method Revoke(token: string, now: Civil)
      modifies this
      ensures Value() == Apply(old(Value()), RevokeSession(token, now)).0
    {
      if token in sessions && sessions[token].revokedAt.None? {
        sessions := sessions[token := sessions[token].(revokedAt := Some(FormatTime(now)))];
      }
    }

    method RevokeAll(userId: string, now: Civil)
      modifies this
      ensures Value() == Apply(old(Value()), RevokeUserSessions(userId, now)).0
      ensures sessions.Keys == old(sessions.Keys) && users == old(users) && grants == old(grants)
      ensures forall t | t in sessions ::
        if old(sessions)[t].userId == userId && old(sessions)[t].revokedAt.None?
        then sessions[t].revokedAt == Some(FormatTime(now)) && sessions[t].(revokedAt := None) == old(sessions)[t]
        else sessions[t] == old(sessions)[t]
    {
      sessions := RevokeWhere(sessions, userId, now);
    }

    method Purge(now: Civil)
      modifies this
      ensures Value() == Apply(old(Value()), PurgeExpired(now)).0
      ensures users == old(users) && grants == old(grants)
      ensures forall t :: t in sessions <==>
        t in old(sessions) && old(sessions)[t].revokedAt.None? && !Less(old(sessions)[t].expiresAt, FormatTime(now))
      ensures forall t | t in sessions :: sessions[t] == old(sessions)[t]
    {
      hide FormatTime, Less;
      sessions := map t | t in sessions &&
        !(Less(sessions[t].expiresAt, FormatTime(now)) || sessions[t].revokedAt.Some?) :: sessions[t];
    }
  }

  // ---- runs ----

  function Run(db: Database, ops: seq<Op>): Database
    decreases |ops|
  {
    if ops == [] then db else Run(Apply(db, ops[0]).0, ops[1..])
  }

  /** One operation after another. */
  lemma {:induction false} RunMore(db: Database, ops: seq<Op>, op: Op)
    ensures Run(db, []) == db && Run(db, ops + [op]) == Apply(Run(db, ops), op).0
    decreases |ops|
  {
    hide Apply;
    if ops == [] {
      assert Run(Apply(db, op).0, []) == Apply(db, op).0;
    } else {
      assert (ops + [op])[1..] == ops[1..] + [op];
      RunMore(Apply(db, ops[0]).0, ops[1..], op);
    }
  }

  // ---- the final fleet owner ----

  lemma OwnerStep(db: Database, op: Op)
    requires ActiveOwners(db.users) != {}
    ensures ActiveOwners(Apply(db, op).0.users) != {}
  {
    hide FormatTime, Less, RevokeWhere, NameTaken;
    var before, after := ActiveOwners(db.users), ActiveOwners(Apply(db, op).0.users);
    match op
    case SetFleetOwner(id, owner) => AnotherOwner(before, after, id);
    case DisableUser(id, _) => AnotherOwner(before, after, id);
    case CreateInitialUser(_, _, _) => assert before <= after;
    case CreateUser(_, _, _) => assert before <= after;
    case CreateSession(_, _, _, _, _, _) =>
    case Reauthenticate(_, _) =>
    case RevokeSession(_, _) =>
    case RevokeUserSessions(_, _) =>
    case PurgeExpired(_) =>
  }

  // Taking one owner away from more than one leaves an owner.
  lemma AnotherOwner(before: set<string>, after: set<string>, id: string)
    requires before - {id} <= after && before != {}
    requires |before| > 1 || id !in before || id in after
    ensures after != {}
  {
    if before <= {id} {
      assert before == {id};
    } else {
      var other :| other in before && other != id;
    }
  }

  /** Once an active fleet owner exists, one always exists. */
  lemma {:induction false} FleetAlwaysHasAnOwner(db: Database, ops: seq<Op>)
    requires ActiveOwners(db.users) != {}
    ensures ActiveOwners(Run(db, ops).users) != {}
    decreases |ops|
  {
    if ops != [] {
      OwnerStep(db, ops[0]);
      FleetAlwaysHasAnOwner(Apply(db, ops[0]).0, ops[1..]);
    }
  }

  // ---- initial setup ----

  lemma {:induction false} UsersStay(db: Database, ops: seq<Op>, id: string)
    requires id in db.users
    ensures id in Run(db, ops).users && (db.users[id].disabled ==> Run(db, ops).users[id].disabled)
    decreases |ops|
  {
    if ops != [] {
      UserStays(db, ops[0], id);
      hide Apply;
      UsersStay(Apply(db, ops[0]).0, ops[1..], id);
    }
  }

  lemma UserStays(db: Database, op: Op, id: string)
    requires id in db.users
    ensures id in Apply(db, op).0.users && (db.users[id].disabled ==> Apply(db, op).0.users[id].disabled)
  {
    hide FormatTime, Less, RevokeWhere, ActiveOwners, NameTaken;
  }

  // ---- accounts and grants ----

  /** An account and the grant it was created with exist together, in every state. */
  lemma {:induction false} AccountsHaveGrants(db: Database, ops: seq<Op>)
    requires db.users.Keys == db.grants.Keys
    ensures Run(db, ops).users.Keys == Run(db, ops).grants.Keys
    decreases |ops|
  {
    if ops != [] {
      GrantStays(db, ops[0]);
      hide Apply;
      AccountsHaveGrants(Apply(db, ops[0]).0, ops[1..]);
    }
  }

  lemma GrantStays(db: Database, op: Op)
    requires db.users.Keys == db.grants.Keys
    ensures Apply(db, op).0.users.Keys == Apply(db, op).0.grants.Keys
  {
    hide FormatTime, Less, RevokeWhere, ActiveOwners, NameTaken;
  }

  /** After a successful initial setup every later one is refused and changes nothing. */
  lemma SetupSucceedsOnce(db: Database, id: string, user: User, role: string, ops: seq<Op>, again: Op)
    requires again.CreateInitialUser?
    requires Apply(db, CreateInitialUser(id, user, role)).1.Done?
    ensures var later := Run(Apply(db, CreateInitialUser(id, user, role)).0, ops);
            Apply(later, again) == (later, AlreadyExists)
  {
    UsersStay(Apply(db, CreateInitialUser(id, user, role)).0, ops, id);
    var later := Run(Apply(db, CreateInitialUser(id, user, role)).0, ops);
    assert id in later.users.Keys && |later.users| == |later.users.Keys|;
  }

  // ---- disabled users and revoked tokens ----

  /** Disabling an enabled user leaves none of their sessions unrevoked at that commit. */
  lemma DisablingRevokes(db: Database, id: string, now: Civil, token: string)
    requires id in db.users && !db.users[id].disabled && Apply(db, DisableUser(id, now)).1.Done?
    ensures var after := Apply(db, DisableUser(id, now)).0;
            && after.users[id].disabled
            && (token in after.sessions <==> token in db.sessions)
            && (token in db.sessions && db.sessions[token].userId == id ==> after.sessions[token].revokedAt.Some?)
            && (token in db.sessions && db.sessions[token].userId != id ==> after.sessions[token] == db.sessions[token])
  {
  }

  /** No token ever authenticates a disabled user again. */
  lemma DisabledNeverAuthenticates(db: Database, id: string, ops: seq<Op>, token: string, now: Civil)
    requires id in db.users && db.users[id].disabled
    ensures var found := SessionByToken(Run(db, ops), token, now);
            found.Some? ==> found.value.0.userId != id && !found.value.1.disabled
  {
    UsersStay(db, ops, id);
  }

  predicate Dead(db: Database, token: string) {
    token !in db.sessions || db.sessions[token].revokedAt.Some?
  }

  lemma {:induction false} DeadStaysDead(db: Database, ops: seq<Op>, token: string)
    requires Dead(db, token)
    requires forall i | 0 <= i < |ops| :: ops[i].CreateSession? ==> ops[i].token != token
    ensures Dead(Run(db, ops), token)
    decreases |ops|
  {
    if ops != [] {
      hide FormatTime, Less, InsertUser;
      assert Dead(Apply(db, ops[0]).0, token) by {
        DeadStep(db, ops[0], token);
      }
      DeadStaysDead(Apply(db, ops[0]).0, ops[1..], token);
    }
  }

  lemma DeadStep(db: Database, op: Op, token: string)
    requires Dead(db, token) && (op.CreateSession? ==> op.token != token)
    ensures Dead(Apply(db, op).0, token)
  {
    hide FormatTime, Less;
  }

  /** A revoked token is never accepted again: tokens are fresh, so none is issued twice. */
  lemma RevokedNeverAuthenticates(db: Database, token: string, revoked: Civil, ops: seq<Op>, now: Civil)
    requires forall i | 0 <= i < |ops| :: ops[i].CreateSession? ==> ops[i].token != token
    ensures SessionByToken(Run(Apply(db, RevokeSession(token, revoked)).0, ops), token, now).None?
  {
    DeadStaysDead(Apply(db, RevokeSession(token, revoked)).0, ops, token);
  }

  /** Revoking a user's sessions marks exactly the unrevoked ones, with a time that reads back as
      the time given, and keeps everything else: an earlier mark, other users' sessions. */
  lemma RevokingAllIsExact(db: Database, userId: string, at: Civil, token: string)
    requires at.Valid() && token in db.sessions
    ensures var s, after := db.sessions[token], Apply(db, RevokeUserSessions(userId, at)).0;
      && token in after.sessions && after.users == db.users && after.grants == db.grants
      && (if s.userId == userId && s.revokedAt.None?
          then after.sessions[token].revokedAt.Some? &&
               ParseTime(after.sessions[token].revokedAt.value) == Some(at) &&
               after.sessions[token].(revokedAt := None) == s
          else after.sessions[token] == s)
  {
    hide FormatTime, FormatAuditTime, ParseTime, Less;
    ParseUndoesFormat(at);
  }

  /** So none of the user's tokens is accepted any more, at whatever time, and every other token
      is accepted as before. */
  lemma RevokingAllLocksOut(db: Database, userId: string, at: Civil, token: string, now: Civil)
    requires at.Valid() && token in db.sessions
    ensures var after := Apply(db, RevokeUserSessions(userId, at)).0;
            SessionByToken(after, token, now) ==
            if db.sessions[token].userId == userId then None else SessionByToken(db, token, now)
  {
    RevokingAllIsExact(db, userId, at, token);
    hide FormatTime, Less, Apply, ParseTime;
  }

  // ---- a login lasts ----

  /** What is fixed when a session is created. */
  datatype Login = Login(token: string, userId: string, name: string, csrf: string, created: Civil, expires: Civil)

  /** The token belongs to this enabled user, with these values and no revocation. */
  ghost predicate Alive(db: Database, l: Login) {
    && l.token in db.sessions && l.userId in db.users
    && db.sessions[l.token].userId == l.userId && db.sessions[l.token].csrf == l.csrf
    && db.sessions[l.token].createdAt == FormatTime(l.created)
    && db.sessions[l.token].expiresAt == FormatTime(l.expires)
    && db.sessions[l.token].revokedAt.None?
    && !db.users[l.userId].disabled && db.users[l.userId].username == l.name
  }

  /** An operation that does not revoke the token, disable its user or purge it: a purge spares
      it while a second or more remains. */
  ghost predicate Harmless(op: Op, l: Login)
    requires l.expires.Valid()
  {
    match op
    case RevokeSession(t, _) => t != l.token
    case RevokeUserSessions(id, _) => id != l.userId
    case DisableUser(id, _) => id != l.userId
    case PurgeExpired(now) => now.Valid() && now.Instant() + SECOND <= l.expires.Instant()
    case _ => true
  }

  lemma AliveStep(db: Database, op: Op, l: Login)
    requires l.expires.Valid() && Alive(db, l) && Harmless(op, l)
    ensures Alive(Apply(db, op).0, l)
  {
    hide FormatTime, Less, RevokeWhere, InsertUser, ActiveOwners;
    match op
    case PurgeExpired(now) => TrimmedTimesErrBelowASecond(l.expires, now);
    case DisableUser(id, now) => RevokeSpares(db.sessions, id, now, l.token);
    case RevokeUserSessions(id, now) => RevokeSpares(db.sessions, id, now, l.token);
    case CreateInitialUser(id, user, role) => InsertSpares(db, id, user, role, l.userId);
    case CreateUser(id, user, role) => InsertSpares(db, id, user, role, l.userId);
    case _ =>
  }

  lemma RevokeSpares(sessions: map<string, Session>, userId: string, now: Civil, token: string)
    requires token in sessions && sessions[token].userId != userId
    ensures token in RevokeWhere(sessions, userId, now) && RevokeWhere(sessions, userId, now)[token] == sessions[token]
  {
    hide FormatTime;
  }

  lemma InsertSpares(db: Database, id: string, user: User, role: string, userId: string)
    requires userId in db.users
    ensures var after := InsertUser(db, id, user, role).0;
            userId in after.users && after.users[userId] == db.users[userId] && after.sessions == db.sessions
  {
    hide NameTaken;
  }

  lemma {:induction false} AliveRun(db: Database, ops: seq<Op>, l: Login)
    requires l.expires.Valid() && Alive(db, l)
    requires forall i | 0 <= i < |ops| :: Harmless(ops[i], l)
    ensures Alive(Run(db, ops), l)
    decreases |ops|
  {
    if ops != [] {
      hide Alive, Harmless, Apply;
      AliveStep(db, ops[0], l);
      AliveRun(Apply(db, ops[0]).0, ops[1..], l);
    }
  }

  /** A session is refused only for a token in use or an unknown user. A new one stands beside
      the others, and its times read back: the authentication time is the creation time unless
      one is given. */
  lemma NewSessionIsStored(db: Database, token: string, userId: string, csrf: string, created: Civil,
                           authenticated: Option<Civil>, expires: Civil)
    requires created.Valid() && expires.Valid() && (authenticated.Some? ==> authenticated.value.Valid())
    ensures var r := Apply(db, CreateSession(token, userId, csrf, created, authenticated, expires));
      && (r.1.Done? <==> token !in db.sessions && userId in db.users)
      && (!r.1.Done? ==> r.0 == db)
      && (r.1.Done? ==>
            && r.0.users == db.users && r.0.sessions.Keys == db.sessions.Keys + {token}
            && (forall t | t in db.sessions :: r.0.sessions[t] == db.sessions[t])
            && Reads(r.0.sessions[token], created,
                     if authenticated.Some? then authenticated.value else created, expires))
  {
    hide FormatTime, FormatAuditTime, ParseTime, Less, Reads;
    TimesRead(csrf, userId, created, if authenticated.Some? then authenticated.value else created, expires);
  }

  lemma TimesRead(csrf: string, userId: string, created: Civil, authenticated: Civil, expires: Civil)
    requires created.Valid() && authenticated.Valid() && expires.Valid()
    ensures Reads(Session(csrf, userId, FormatTime(created), FormatTime(authenticated), FormatTime(expires), None),
                  created, authenticated, expires)
  {
    hide FormatTime, FormatAuditTime, ParseTime;
    ParseUndoesFormat(created);
    ParseUndoesFormat(authenticated);
    ParseUndoesFormat(expires);
  }

  /** The stored times of a session read back as these. */
  predicate Reads(s: Session, created: Civil, authenticated: Civil, expires: Civil) {
    && ParseTime(s.createdAt) == Some(created) && ParseTime(s.expiresAt) == Some(expires)
    && ParseTime(s.authenticatedAt) == Some(authenticated)
  }

  /** After a login the token authenticates exactly its user, through any later operations that
      do not revoke, disable or purge it, while a second or more remains; and no one from a
      second after its end. */
  lemma LoginAuthenticates(db: Database, l: Login, authenticated: Option<Civil>, ops: seq<Op>, now: Civil)
    requires l.expires.Valid() && now.Valid()
    requires l.userId in db.users && !db.users[l.userId].disabled && db.users[l.userId].username == l.name
    requires l.token !in db.sessions && forall i | 0 <= i < |ops| :: Harmless(ops[i], l)
    ensures var login := Apply(db, CreateSession(l.token, l.userId, l.csrf, l.created, authenticated, l.expires));
            var later := Run(login.0, ops);
            var found := SessionByToken(later, l.token, now);
      && login.1.Done? && Alive(later, l)
      && (now.Instant() + SECOND <= l.expires.Instant() ==>
            found == Some((later.sessions[l.token], later.users[l.userId])))
      && (l.expires.Instant() + SECOND <= now.Instant() ==> found.None?)
  {
    hide FormatTime, Less;
    var first := Apply(db, CreateSession(l.token, l.userId, l.csrf, l.created, authenticated, l.expires)).0;
    assert Alive(first, l);
    AliveRun(first, ops, l);
    var later := Run(first, ops);
    hide Apply, Run;
    ExpiryErrsBelowASecond(later.sessions[l.token], l.expires, now);
    hide Open;
  }

  /** Reauthentication moves one time of one open session and nothing else. */
  lemma ReauthenticationIsLocal(db: Database, token: string, now: Civil)
    ensures var after := Apply(db, Reauthenticate(token, now)).0;
            && after.users == db.users && after.grants == db.grants && after.sessions.Keys == db.sessions.Keys
            && (forall t | t in db.sessions && t != token :: after.sessions[t] == db.sessions[t])
            && (token in db.sessions ==>
                  after.sessions[token].(authenticatedAt := db.sessions[token].authenticatedAt) == db.sessions[token])
            && (Apply(db, Reauthenticate(token, now)).1.Done? <==>
                token in db.sessions && Open(db.sessions[token], now))
  {
    hide FormatTime, Less;
  }

  /** The time it moves reads back as the time of the reauthentication. */
  lemma ReauthenticationTime(db: Database, token: string, now: Civil)
    requires now.Valid() && token in db.sessions && Open(db.sessions[token], now)
    ensures ParseTime(Apply(db, Reauthenticate(token, now)).0.sessions[token].authenticatedAt) == Some(now)
  {
    hide FormatTime, FormatAuditTime, ParseTime, Less;
    ParseUndoesFormat(now);
  }

  // ---- expiry by string comparison ----

  /** Session validity errs by less than a second: a session is open while more than a second
      remains and closed a second after its end. */
  lemma ExpiryErrsBelowASecond(s: Session, expires: Civil, now: Civil)
    requires expires.Valid() && now.Valid() && s.expiresAt == FormatTime(expires) && s.revokedAt.None?
    ensures now.Instant() + SECOND <= expires.Instant() ==> Open(s, now)
    ensures expires.Instant() + SECOND <= now.Instant() ==> !Open(s, now)
  {
    TrimmedTimesErrBelowASecond(now, expires);
  }

  /** So does the purge. */
  lemma PurgeErrsBelowASecond(db: Database, token: string, expires: Civil, now: Civil)
    requires expires.Valid() && now.Valid() && token in db.sessions
    requires db.sessions[token].expiresAt == FormatTime(expires) && db.sessions[token].revokedAt.None?
    ensures now.Instant() + SECOND <= expires.Instant() ==> token in Apply(db, PurgeExpired(now)).0.sessions
    ensures expires.Instant() + SECOND <= now.Instant() ==> token !in Apply(db, PurgeExpired(now)).0.sessions
  {
    hide FormatTime, Less, Civil.Instant;
    TrimmedTimesErrBelowASecond(expires, now);
  }

  /** The two instants lie in one second, and the fraction of the earlier is written as the
      beginning of the later's. */
  predicate Confused(a: Civil, b: Civil)
    requires a.Valid() && b.Valid()
  {
    && a.Seconds() == b.Seconds() && a.nano != b.nano
    && if a.nano < b.nano then Fraction(a) <= Fraction(b) else Fraction(b) <= Fraction(a)
  }

  /** A session is open exactly until its end, and purged exactly after it, if and only if the
      two times are not confused. */
  lemma ExpiryIsExact(db: Database, token: string, expires: Civil, now: Civil)
    requires expires.Valid() && now.Valid() && token in db.sessions
    requires db.sessions[token].expiresAt == FormatTime(expires) && db.sessions[token].revokedAt.None?
    ensures (Open(db.sessions[token], now) <==> now.Instant() < expires.Instant()) <==> !Confused(now, expires)
    ensures (token !in Apply(db, PurgeExpired(now)).0.sessions <==> expires.Instant() < now.Instant()) <==>
            !Confused(now, expires)
  {
    StringsDecide(now, expires);
    StringsDecide(expires, now);
    hide FormatTime, Less, Confused;
  }

  lemma StringsDecide(a: Civil, b: Civil)
    requires a.Valid() && b.Valid()
    ensures (Less(FormatTime(a), FormatTime(b)) <==> a.Instant() < b.Instant()) <==> !Confused(a, b)
    ensures Confused(a, b) <==> Confused(b, a)
  {
    TrimmedTimeOrder(a, b);
    TrimmedTimeOrder(b, a);
    InstantOrder(a, b);
    EarlierSecondIsFewerSeconds(a, b);
    LessIrreflexive(FormatTime(a));
    hide FormatTime, Fraction, Less;
  }

  /** Half a second after its end a session that ends on a full second is still open. */
  lemma ExpiredSessionIsOpen(s: Session, expires: Civil) returns (now: Civil)
    requires expires.Valid() && expires.nano == 0
    requires s.expiresAt == FormatTime(expires) && s.revokedAt.None?
    ensures now.Valid() && now.Instant() == expires.Instant() + 500_000_000 && Open(s, now)
  {
    now := expires.(nano := 500_000_000);
    TrimmedTimeOrder(expires, now);
    FractionOfZero(9);
  }
}
