/** The schema migrations as transformations of tables (backend/internal/store/migrate.go). */
module Migrations {
  import opened Text
  import opened Wrappers
  import opened Timestamps

  datatype Role = Administrator | Operator | Viewer

  // A column that a table has only in some versions is an Option.

  datatype UserRow = UserRow(username: string, passwordHash: string, role: Option<Role>, fleetOwner: Option<bool>,
                             disabled: bool, createdAt: string)

  datatype SessionRow = SessionRow(csrf: string, userId: string, createdAt: string, authenticatedAt: Option<string>,
                                   expiresAt: string, revokedAt: Option<string>)

  /** The columns of migration 3. */
  datatype Identity = Identity(principalKind: string, principalId: Option<string>, serverId: Option<string>,
                               nodeId: Option<string>, requestId: Option<string>, jobId: Option<string>, attempt: nat)

  datatype AuditRow = AuditRow(occurredAt: string, userId: Option<string>, username: string, action: string,
                               target: string, sourceIp: string, outcome: string, details: string,
                               identity: Option<Identity>)

  datatype BackupRow = BackupRow(serverId: Option<string>, filename: string, size: int, createdAt: string,
                                 createdBy: string, status: string)

  datatype Stamped = Stamped(value: string, updatedAt: string)

  datatype Adoption = Adoption(dockerBaseUrl: string, containerName: string, dataDir: string, backupDir: string,
                               worldName: string, rconAddress: string)

  datatype NodeRow = NodeRow(name: string, dockerBaseUrl: string, createdAt: string)

  datatype ServerRow = ServerRow(slug: string, nodeId: string, adoption: Adoption, createdAt: string)

  datatype GrantRow = GrantRow(role: Role, grantedBy: string, grantedAt: string)

  datatype Tables = Tables(
    users: map<string, UserRow>, sessions: map<string, SessionRow>, audit: map<string, AuditRow>,
    backups: map<string, BackupRow>, settings: map<string, Stamped>,
    nodes: map<string, NodeRow>, servers: map<string, ServerRow>,
    secrets: map<(string, string), Stamped>, grants: map<(string, string), GrantRow>,
    auditIsAppendOnly: bool)

  const RCON_SECRET := "integration.rcon.v1"
  const ADOPTED_SLUG := "default"
  const DEFAULT_IDENTITY := Identity("user", None, None, None, None, None, 1)
  const LATEST: nat := 4

  // ---- the migrations ----

  /** Migration 1: an exact-second time gets its fraction. */
  function Normalise(occurredAt: string): string {
    if |occurredAt| == 20 && occurredAt[19] == 'Z' then occurredAt[..19] + ".000000000Z" else occurredAt
  }

  function Migrate1(t: Tables): Tables {
    t.(audit := map id | id in t.audit :: t.audit[id].(occurredAt := Normalise(t.audit[id].occurredAt)))
  }

  /** The fresh identifiers and the time of one open, and the configured server. */
  datatype Input = Input(nodeId: string, serverId: string, now: string, adoption: Adoption, fails: nat -> bool)

  function RebuiltUsers(users: map<string, UserRow>): map<string, UserRow> {
    map id | id in users ::
      users[id].(role := None, fleetOwner := Some(users[id].role == Some(Administrator)))
  }

  function GrantsFor(users: map<string, UserRow>, input: Input): map<(string, string), GrantRow> {
    map id | id in users && users[id].role.Some? ::
      (id, input.serverId) := GrantRow(users[id].role.value, "migration", input.now)
  }

  function OwnedBackups(backups: map<string, BackupRow>, serverId: string): map<string, BackupRow> {
    map id | id in backups :: backups[id].(serverId := Some(serverId))
  }

  /** Migration 2 as one simultaneous change. */
  function Migrate2(t: Tables, input: Input): Tables {
    t.(nodes := t.nodes[input.nodeId := NodeRow("local", input.adoption.dockerBaseUrl, input.now)],
       servers := t.servers[input.serverId := ServerRow(ADOPTED_SLUG, input.nodeId, input.adoption, input.now)],
       secrets := if RCON_SECRET in t.settings
                  then t.secrets[(input.serverId, RCON_SECRET) := t.settings[RCON_SECRET]] else t.secrets,
       settings := t.settings - {RCON_SECRET},
       grants := t.grants + GrantsFor(t.users, input),
       users := RebuiltUsers(t.users),
       backups := OwnedBackups(t.backups, input.serverId))
  }

  function Migrate3(t: Tables): Tables {
    t.(audit := map id | id in t.audit :: t.audit[id].(identity := Some(DEFAULT_IDENTITY)), auditIsAppendOnly := true)
  }

  function Migrate4(t: Tables): Tables {
    t.(sessions := map s | s in t.sessions :: t.sessions[s].(authenticatedAt := Some(t.sessions[s].createdAt)))
  }

  /** The schema and the ledger of applied versions. */
  datatype State = State(tables: Tables, ledger: map<nat, string>)

  function ApplyVersion(s: State, version: nat, input: Input): State {
    State(match version
          case 1 => Migrate1(s.tables)
          case 2 => Migrate2(s.tables, input)
          case 3 => Migrate3(s.tables)
          case 4 => Migrate4(s.tables)
          case _ => s.tables,
          s.ledger[version := input.now])
  }

  /** Every pending version from `version` on, until one fails. */
  function Upgrade(s: State, version: nat, input: Input): (State, bool)
    decreases LATEST + 1 - version
  {
    if version > LATEST then (s, true)
    else if input.fails(version) then (s, false)
    else Upgrade(ApplyVersion(s, version, input), version + 1, input)
  }

  /** Zero, or one of the versions, and none of them is larger. */
  predicate IsLatest(versions: set<nat>, latest: nat) {
    (latest == 0 || latest in versions) && forall v | v in versions :: v <= latest
  }

  /** `COALESCE(MAX(version), 0)`. */
  function Applied(ledger: map<nat, string>): (version: nat)
    ensures IsLatest(ledger.Keys, version)
  {
    LatestExists(ledger.Keys);
    var latest :| IsLatest(ledger.Keys, latest);
    latest
  }

  lemma {:induction false} LatestExists(versions: set<nat>)
    ensures exists latest: nat :: IsLatest(versions, latest)
  {
    if versions == {} {
      assert IsLatest(versions, 0);
    } else {
      var some :| some in versions;
      LatestExists(versions - {some});
      var rest: nat :| IsLatest(versions - {some}, rest);
      assert forall v | v in versions :: v == some || v in versions - {some};
      assert IsLatest(versions, if rest < some then some else rest);
    }
  }

  /** References that point nowhere, as `pragma_foreign_key_check` finds them. */
  predicate ForeignKeysHold(t: Tables) {
    && (forall s | s in t.sessions :: t.sessions[s].userId in t.users)
    && (forall id | id in t.backups && t.backups[id].serverId.Some? :: t.backups[id].serverId.value in t.servers)
    && (forall id | id in t.servers :: t.servers[id].nodeId in t.nodes)
    && (forall k | k in t.secrets :: k.0 in t.servers)
    && (forall k | k in t.grants :: k.0 in t.users && k.1 in t.servers)
  }

  datatype Outcome = Migrated | TooNew | Failed | Dangling

  /** One open of the database. */
  function OpenOnce(s: State, input: Input): (State, Outcome) {
    var applied := Applied(s.ledger);
    if applied > LATEST then (s, TooNew)
    else if applied == LATEST then (s, Migrated)
    else
      var (after, finished) := Upgrade(s, applied + 1, input);
      (after, if !finished then Failed else if ForeignKeysHold(after.tables) then Migrated else Dangling)
  }

  class Database {
    var tables: Tables
    var ledger: map<nat, string>
    var foreignKeys: bool

    constructor (s: State)
      ensures State(tables, ledger) == s && foreignKeys
    {
      tables, ledger, foreignKeys := s.tables, s.ledger, true;
    }

    /** `DROP TABLE users` and the rename of its replacement. With foreign keys on, dropping
        deletes whatever refers to a user. */
    method ReplaceUsers(rebuilt: map<string, UserRow>)
      modifies this`tables
      ensures tables == old(tables).(
        users := rebuilt,
        sessions := if foreignKeys
                    then map s | s in old(tables.sessions) && old(tables.sessions)[s].userId !in old(tables.users) ::
                           old(tables.sessions)[s]
                    else old(tables.sessions),
        grants := if foreignKeys
                  then map k | k in old(tables.grants) && k.0 !in old(tables.users) :: old(tables.grants)[k]
                  else old(tables.grants))
    {
      if foreignKeys {
        tables := tables.(
          sessions := map s | s in tables.sessions && tables.sessions[s].userId !in tables.users :: tables.sessions[s],
          grants := map k | k in tables.grants && k.0 !in tables.users :: tables.grants[k]);
      }
      tables := tables.(users := rebuilt);
    }

    /** `adoptConfiguredServer`, statement by statement. */
    method AdoptConfiguredServer(input: Input)
      requires !foreignKeys
      modifies this`tables
      ensures tables == Migrate2(old(tables), input)
    {
      tables := tables.(nodes := tables.nodes[input.nodeId :=
        NodeRow("local", input.adoption.dockerBaseUrl, input.now)]);
      tables := tables.(servers := tables.servers[input.serverId :=
        ServerRow(ADOPTED_SLUG, input.nodeId, input.adoption, input.now)]);
      if RCON_SECRET in tables.settings {
        tables := tables.(secrets := tables.secrets[(input.serverId, RCON_SECRET) := tables.settings[RCON_SECRET]]);
      }
      tables := tables.(settings := tables.settings - {RCON_SECRET});
      tables := tables.(grants := tables.grants + GrantsFor(tables.users, input));
      var usersNew := RebuiltUsers(tables.users);
      ReplaceUsers(usersNew);
      var backupsNew := OwnedBackups(tables.backups, input.serverId);
      tables := tables.(backups := backupsNew);
    }

    /** `applyMigration`: the statements and the ledger entry together, or nothing. */
    method ApplyMigration(version: nat, input: Input) returns (ok: bool)
      requires 1 <= version <= LATEST && !foreignKeys
      modifies this`tables, this`ledger
      ensures ok == !input.fails(version)
      ensures State(tables, ledger) ==
              if ok then ApplyVersion(old(State(tables, ledger)), version, input) else old(State(tables, ledger))
    {
      var saved := tables;
      if version == 1 {
        tables := tables.(audit := map id | id in tables.audit ::
          tables.audit[id].(occurredAt := Normalise(tables.audit[id].occurredAt)));
      } else if version == 2 {
        AdoptConfiguredServer(input);
      } else if version == 3 {
        tables := tables.(audit := map id | id in tables.audit ::
          tables.audit[id].(identity := Some(DEFAULT_IDENTITY)));
        tables := tables.(auditIsAppendOnly := true);
      } else {
        var sessionsNew := map s | s in tables.sessions ::
          tables.sessions[s].(authenticatedAt := Some(tables.sessions[s].createdAt));
        tables := tables.(sessions := sessionsNew);
      }
      if input.fails(version) {
        tables := saved;
        return false;
      }
      ledger := ledger[version := input.now];
      return true;
    }

    /** `migrate`. */
    method Migrate(input: Input) returns (outcome: Outcome)
      modifies this
      ensures (State(tables, ledger), outcome) == OpenOnce(old(State(tables, ledger)), input)
      ensures (exists v :: v in old(ledger) && v > 4) ==>
        outcome == TooNew && tables == old(tables) && ledger == old(ledger)
    {
      NewerIsRefused(State(tables, ledger), input);
      hide Upgrade, ForeignKeysHold;
      var applied := Applied(ledger);
      if applied > LATEST {
        return TooNew;
      }
      if applied == LATEST {
        return Migrated;
      }
      foreignKeys := false;
      var finished := ApplyPending(applied, input);
      if !finished {
        return Failed;
      }
      foreignKeys := true;
      return if ForeignKeysHold(tables) then Migrated else Dangling;
    }

    /** The loop over the migration list. */
    method ApplyPending(applied: nat, input: Input) returns (finished: bool)
      requires !foreignKeys && applied <= LATEST
      modifies this`tables, this`ledger
      ensures (State(tables, ledger), finished) == Upgrade(old(State(tables, ledger)), applied + 1, input)
    {
      hide ApplyVersion;
      var version := 1;
      while version <= LATEST
        invariant 1 <= version <= LATEST + 1
        invariant version <= applied + 1 ==> State(tables, ledger) == old(State(tables, ledger))
        invariant Upgrade(old(State(tables, ledger)), applied + 1, input) ==
                  Upgrade(State(tables, ledger), if version <= applied then applied + 1 else version, input)
      {
        if version > applied {
          var ok := ApplyMigration(version, input);
          if !ok {
            return false;
          }
        }
        version := version + 1;
      }
      return true;
    }
  }

  // ---- what a database means, whatever its version ----

  datatype Account = Account(username: string, passwordHash: string, role: Option<Role>, fleetOwner: bool,
                             disabled: bool, createdAt: string)

  type Users = map<string, UserRow>
  type Grants = map<(string, string), GrantRow>
  type Sessions = map<string, SessionRow>
  type AuditRows = map<string, AuditRow>
  type Backups = map<string, BackupRow>

  /** Identity and role of a user: from the role column, or from the grant on the server. */
  function AccountOf(u: UserRow, id: string, grants: Grants, server: Option<string>): Account {
    Account(u.username, u.passwordHash,
            if u.role.Some? then u.role
            else if server.Some? && (id, server.value) in grants then Some(grants[(id, server.value)].role) else None,
            if u.fleetOwner.Some? then u.fleetOwner.value else u.role == Some(Administrator),
            u.disabled, u.createdAt)
  }

  function ReadAccounts(users: Users, grants: Grants, server: Option<string>): map<string, Account> {
    map id | id in users :: AccountOf(users[id], id, grants, server)
  }

  function ReadSessions(sessions: Sessions): Sessions {
    map s | s in sessions ::
      sessions[s].(authenticatedAt :=
        Some(if sessions[s].authenticatedAt.Some? then sessions[s].authenticatedAt.value else sessions[s].createdAt))
  }

  /** Times are read as they are stored, except that of a database no version has been applied to
      yet in their normal form. */
  function ReadTime(occurredAt: string, legacy: bool): string {
    if legacy then Normalise(occurredAt) else occurredAt
  }

  function ReadAudit(audit: AuditRows, legacy: bool): AuditRows {
    map id | id in audit ::
      audit[id].(occurredAt := ReadTime(audit[id].occurredAt, legacy),
                 identity := Some(if audit[id].identity.Some? then audit[id].identity.value else DEFAULT_IDENTITY))
  }

  function ReadBackups(backups: Backups): Backups {
    map id | id in backups :: backups[id].(serverId := None)
  }

  function ReadSecret(t: Tables, server: Option<string>): Option<Stamped> {
    if server.Some?
    then (if (server.value, RCON_SECRET) in t.secrets then Some(t.secrets[(server.value, RCON_SECRET)]) else None)
    else (if RCON_SECRET in t.settings then Some(t.settings[RCON_SECRET]) else None)
  }

  /** Everything a reader can ask of the database that does not depend on generated values. */
  datatype View = View(accounts: map<string, Account>, sessions: Sessions, audit: AuditRows, backups: Backups,
                       settings: map<string, Stamped>, secret: Option<Stamped>)

  function ViewOf(t: Tables, server: Option<string>, version: nat): View {
    View(ReadAccounts(t.users, t.grants, server), ReadSessions(t.sessions), ReadAudit(t.audit, version == 0),
         ReadBackups(t.backups), t.settings - {RCON_SECRET}, ReadSecret(t, server))
  }

  // The shape of the tables at a version.

  ghost predicate UsersShape(users: Users, grants: Grants, server: Option<string>) {
    if server.None? then
      grants == map[] && forall id | id in users :: users[id].role.Some? && users[id].fleetOwner.None?
    else
      && grants.Keys == (set id | id in users :: (id, server.value))
      && forall id | id in users :: users[id].role.None? && users[id].fleetOwner.Some?
  }

  ghost predicate FleetShape(t: Tables, server: Option<string>) {
    if server.None? then t.nodes == map[] && t.servers == map[] && t.secrets == map[]
    else
      && t.servers.Keys == {server.value} && t.servers[server.value].slug == ADOPTED_SLUG
      && (forall k | k in t.secrets :: k == (server.value, RCON_SECRET)) && RCON_SECRET !in t.settings
  }

  ghost predicate BackupsShape(backups: Backups, server: Option<string>) {
    forall id | id in backups :: backups[id].serverId == server
  }

  ghost predicate AuditShape(audit: AuditRows, identified: bool) {
    forall id | id in audit :: audit[id].identity.Some? <==> identified
  }

  ghost predicate SessionsShape(sessions: Sessions, timed: bool) {
    forall s | s in sessions :: sessions[s].authenticatedAt == if timed then Some(sessions[s].createdAt) else None
  }

  /** `server` is the adopted server from version 2 on. */
  ghost predicate Schema(t: Tables, version: nat, server: Option<string>) {
    && (server.Some? <==> version >= 2)
    && UsersShape(t.users, t.grants, server) && FleetShape(t, server) && BackupsShape(t.backups, server)
    && AuditShape(t.audit, version >= 3) && (version >= 3 ==> t.auditIsAppendOnly)
    && SessionsShape(t.sessions, version >= 4)
  }

  /** Each version up to `version` is recorded, and the tables have that version's shape. */
  ghost predicate Good(s: State, version: nat, server: Option<string>) {
    && version <= LATEST
    && (forall v: nat :: v in s.ledger <==> 1 <= v <= version)
    && Schema(s.tables, version, server)
    && ForeignKeysHold(s.tables)
  }

  function ServerAfter(version: nat, server: Option<string>, input: Input): Option<string> {
    if version == 2 then Some(input.serverId) else server
  }

  // ---- every migration preserves the meaning ----

  lemma NormalisedOnce(audit: AuditRows)
    ensures ReadAudit(map id | id in audit :: audit[id].(occurredAt := Normalise(audit[id].occurredAt)), false) ==
            ReadAudit(audit, true)
  {
    hide Normalise;
  }

  lemma Migrate1Preserves(t: Tables)
    requires Schema(t, 0, None) && ForeignKeysHold(t)
    ensures Schema(Migrate1(t), 1, None) && ForeignKeysHold(Migrate1(t))
    ensures ViewOf(Migrate1(t), None, 1) == ViewOf(t, None, 0)
  {
    NormalisedOnce(t.audit);
    hide Normalise, ReadAudit, ReadSessions, ReadBackups, ReadAccounts,
         UsersShape, FleetShape, BackupsShape, SessionsShape;
    assert FleetShape(Migrate1(t), None) by { FleetUnchanged(t, Migrate1(t), None); }
  }

  lemma FleetUnchanged(t: Tables, m: Tables, server: Option<string>)
    requires m.nodes == t.nodes && m.servers == t.servers && m.secrets == t.secrets && m.settings == t.settings
    requires FleetShape(t, server)
    ensures FleetShape(m, server)
  {
  }

  lemma AccountsAdopted(users: Users, input: Input)
    requires UsersShape(users, map[], None)
    ensures var rebuilt, grants := RebuiltUsers(users), GrantsFor(users, input);
            && UsersShape(rebuilt, grants, Some(input.serverId))
            && ReadAccounts(rebuilt, grants, Some(input.serverId)) == ReadAccounts(users, map[], None)
            && (forall k | k in grants :: k.0 in rebuilt && k.1 == input.serverId)
  {
    var rebuilt, grants := RebuiltUsers(users), GrantsFor(users, input);
    assert grants.Keys == set id | id in rebuilt :: (id, input.serverId);
    forall id | id in users
      ensures AccountOf(rebuilt[id], id, grants, Some(input.serverId)) == AccountOf(users[id], id, map[], None)
    {
      assert (id, input.serverId) in grants;
    }
  }

  lemma BackupsAdopted(backups: Backups, server: string)
    requires BackupsShape(backups, None)
    ensures BackupsShape(OwnedBackups(backups, server), Some(server))
    ensures ReadBackups(OwnedBackups(backups, server)) == ReadBackups(backups)
  {
  }

  lemma FleetAdopted(t: Tables, input: Input)
    requires FleetShape(t, None)
    ensures FleetShape(Migrate2(t, input), Some(input.serverId))
    ensures ReadSecret(Migrate2(t, input), Some(input.serverId)) == ReadSecret(t, None)
    ensures Migrate2(t, input).settings - {RCON_SECRET} == t.settings - {RCON_SECRET}
  {
    hide RebuiltUsers, GrantsFor;
  }

  lemma AdoptedTables(t: Tables, input: Input)
    requires Schema(t, 1, None)
    ensures var m := Migrate2(t, input);
      && m.users == RebuiltUsers(t.users) && m.grants == GrantsFor(t.users, input)
      && m.sessions == t.sessions && m.audit == t.audit && m.backups == OwnedBackups(t.backups, input.serverId)
      && input.serverId in m.servers
  {
    hide RebuiltUsers, GrantsFor, OwnedBackups, Schema;
    NoGrantsYet(t);
    assert map[] + GrantsFor(t.users, input) == GrantsFor(t.users, input);
  }

  lemma SessionsStillRefer(t: Tables)
    requires ForeignKeysHold(t)
    ensures forall s | s in t.sessions :: t.sessions[s].userId in RebuiltUsers(t.users)
  {
    assert RebuiltUsers(t.users).Keys == t.users.Keys;
  }

  lemma ReferencesAdopted(t: Tables, input: Input)
    requires Schema(t, 1, None) && ForeignKeysHold(t)
    ensures ForeignKeysHold(Migrate2(t, input))
  {
    hide Migrate2, RebuiltUsers, GrantsFor, OwnedBackups, UsersShape, Schema, ReadAccounts;
    AdoptedTables(t, input);
    SessionsStillRefer(t);
    assert UsersShape(t.users, map[], None) by { NoGrantsYet(t); }
    AccountsAdopted(t.users, input);
    FleetReferences(t, input);
  }

  lemma FleetReferences(t: Tables, input: Input)
    requires Schema(t, 1, None)
    ensures var m := Migrate2(t, input);
      && (forall id | id in m.backups && m.backups[id].serverId.Some? :: m.backups[id].serverId.value in m.servers)
      && (forall id | id in m.servers :: m.servers[id].nodeId in m.nodes)
      && (forall k | k in m.secrets :: k.0 in m.servers)
  {
    hide RebuiltUsers, GrantsFor, UsersShape, BackupsShape, AuditShape, SessionsShape;
  }

  lemma NoGrantsYet(t: Tables)
    requires Schema(t, 1, None)
    ensures t.grants == map[] && UsersShape(t.users, map[], None)
  {
  }

  lemma Migrate2Preserves(t: Tables, input: Input)
    requires Schema(t, 1, None) && ForeignKeysHold(t)
    ensures Schema(Migrate2(t, input), 2, Some(input.serverId)) && ForeignKeysHold(Migrate2(t, input))
    ensures ViewOf(Migrate2(t, input), Some(input.serverId), 2) == ViewOf(t, None, 1)
  {
    ReferencesAdopted(t, input);
    Schema1Parts(t);
    AccountsAdopted(t.users, input);
    BackupsAdopted(t.backups, input.serverId);
    FleetAdopted(t, input);
    AdoptedTables(t, input);
    hide Migrate2, Normalise, ReadAudit, ReadSessions, ReadBackups, ReadAccounts, ReadSecret, RebuiltUsers, GrantsFor,
         UsersShape, FleetShape, BackupsShape, AuditShape, SessionsShape, ForeignKeysHold;
  }

  lemma Schema1Parts(t: Tables)
    requires Schema(t, 1, None)
    ensures t.grants == map[] && UsersShape(t.users, map[], None) && FleetShape(t, None)
    ensures BackupsShape(t.backups, None)
  {
    NoGrantsYet(t);
    hide UsersShape, FleetShape, BackupsShape;
  }

  lemma AuditIdentified(audit: AuditRows)
    requires AuditShape(audit, false)
    ensures var identified := map id | id in audit :: audit[id].(identity := Some(DEFAULT_IDENTITY));
            AuditShape(identified, true) && ReadAudit(identified, false) == ReadAudit(audit, false)
  {
    hide Normalise;
  }

  lemma Migrate3Preserves(t: Tables, server: Option<string>)
    requires Schema(t, 2, server) && ForeignKeysHold(t)
    ensures Schema(Migrate3(t), 3, server) && ForeignKeysHold(Migrate3(t))
    ensures ViewOf(Migrate3(t), server, 3) == ViewOf(t, server, 2)
  {
    AuditIdentified(t.audit);
    hide ReadAudit, ReadSessions, ReadBackups, ReadAccounts, UsersShape, BackupsShape, AuditShape, SessionsShape;
    FleetUnchanged(t, Migrate3(t), server);
    hide FleetShape;
  }

  lemma SessionsTimed(sessions: Sessions)
    requires SessionsShape(sessions, false)
    ensures var timed := map s | s in sessions :: sessions[s].(authenticatedAt := Some(sessions[s].createdAt));
            SessionsShape(timed, true) && ReadSessions(timed) == ReadSessions(sessions)
  {
  }

  lemma Migrate4Preserves(t: Tables, server: Option<string>)
    requires Schema(t, 3, server) && ForeignKeysHold(t)
    ensures Schema(Migrate4(t), 4, server) && ForeignKeysHold(Migrate4(t))
    ensures ViewOf(Migrate4(t), server, 4) == ViewOf(t, server, 3)
  {
    SessionsTimed(t.sessions);
    hide ReadAudit, ReadSessions, ReadBackups, ReadAccounts, UsersShape, BackupsShape, AuditShape, SessionsShape;
    FleetUnchanged(t, Migrate4(t), server);
    hide FleetShape;
  }

  lemma VersionPreserves(s: State, version: nat, server: Option<string>, input: Input)
    requires Good(s, version, server) && version < LATEST
    ensures Good(ApplyVersion(s, version + 1, input), version + 1, ServerAfter(version + 1, server, input))
    ensures ViewOf(ApplyVersion(s, version + 1, input).tables, ServerAfter(version + 1, server, input), version + 1) ==
            ViewOf(s.tables, server, version)
  {
    hide Schema, ForeignKeysHold, ViewOf, Migrate1, Migrate2, Migrate3, Migrate4;
    assert server.Some? <==> version >= 2 by { SchemaServer(s.tables, version, server); }
    if version == 0 {
      Migrate1Preserves(s.tables);
    } else if version == 1 {
      Migrate2Preserves(s.tables, input);
    } else if version == 2 {
      Migrate3Preserves(s.tables, server);
    } else {
      Migrate4Preserves(s.tables, server);
    }
  }

  lemma SchemaServer(t: Tables, version: nat, server: Option<string>)
    requires Schema(t, version, server)
    ensures server.Some? <==> version >= 2
  {
  }

  /** The adopted server after a run of pending versions that stops at `stop`. */
  lemma {:induction false} UpgradePreserves(s: State, version: nat, server: Option<string>, input: Input)
    returns (reached: nat, adopted: Option<string>)
    requires Good(s, version, server)
    ensures version <= reached <= LATEST
    ensures Good(Upgrade(s, version + 1, input).0, reached, adopted)
    ensures ViewOf(Upgrade(s, version + 1, input).0.tables, adopted, reached) == ViewOf(s.tables, server, version)
    ensures Upgrade(s, version + 1, input).1 <==> reached == LATEST
    ensures version < LATEST && reached < LATEST ==> input.fails(reached + 1)
    decreases LATEST - version
  {
    hide Good, ViewOf, ApplyVersion, ServerAfter, ForeignKeysHold, Applied;
    reached, adopted := version, server;
    GoodVersion(s, version, server);
    if version < LATEST && !input.fails(version + 1) {
      VersionPreserves(s, version, server, input);
      reached, adopted := UpgradePreserves(ApplyVersion(s, version + 1, input), version + 1,
                                           ServerAfter(version + 1, server, input), input);
    }
  }

  lemma GoodVersion(s: State, version: nat, server: Option<string>)
    requires Good(s, version, server)
    ensures version <= LATEST && Applied(s.ledger) == version && ForeignKeysHold(s.tables)
  {
    hide Schema, ForeignKeysHold;
    assert version > 0 ==> version in s.ledger;
    assert forall v | v in s.ledger.Keys :: v in s.ledger;
  }

  // ---- resuming ----

  /** The database after opening it with each input in turn. */
  function OpenAll(s: State, inputs: seq<Input>): State
    decreases |inputs|
  {
    if inputs == [] then s else OpenAll(OpenOnce(s, inputs[0]).0, inputs[1..])
  }

  lemma OpenAtVersion(s: State, version: nat, input: Input)
    requires Applied(s.ledger) == version <= LATEST
    ensures version == LATEST ==> OpenOnce(s, input) == (s, Migrated)
    ensures version < LATEST ==> OpenOnce(s, input).0 == Upgrade(s, version + 1, input).0
    ensures var upgraded := Upgrade(s, version + 1, input);
            version < LATEST && upgraded.1 && ForeignKeysHold(upgraded.0.tables) ==> OpenOnce(s, input).1 == Migrated
    ensures version < LATEST && !Upgrade(s, version + 1, input).1 ==> OpenOnce(s, input).1 == Failed
  {
    hide Upgrade, Applied, ForeignKeysHold;
  }

  lemma OpenPreserves(s: State, version: nat, server: Option<string>, input: Input)
    returns (reached: nat, adopted: Option<string>)
    requires Good(s, version, server)
    ensures version <= reached <= LATEST && Good(OpenOnce(s, input).0, reached, adopted)
    ensures ViewOf(OpenOnce(s, input).0.tables, adopted, reached) == ViewOf(s.tables, server, version)
    ensures OpenOnce(s, input).1 == if reached == LATEST then Migrated else Failed
    ensures reached < LATEST ==> input.fails(reached + 1)
  {
    hide Good, ViewOf, Upgrade, OpenOnce, Applied, ForeignKeysHold;
    reached, adopted := version, server;
    GoodVersion(s, version, server);
    OpenAtVersion(s, version, input);
    if version < LATEST {
      reached, adopted := UpgradeKeepsReferences(s, version, server, input);
    }
  }

  lemma UpgradeKeepsReferences(s: State, version: nat, server: Option<string>, input: Input)
    returns (reached: nat, adopted: Option<string>)
    requires Good(s, version, server) && version < LATEST
    ensures version <= reached <= LATEST
    ensures Good(Upgrade(s, version + 1, input).0, reached, adopted)
    ensures ViewOf(Upgrade(s, version + 1, input).0.tables, adopted, reached) == ViewOf(s.tables, server, version)
    ensures Upgrade(s, version + 1, input).1 <==> reached == LATEST
    ensures reached < LATEST ==> input.fails(reached + 1)
    ensures ForeignKeysHold(Upgrade(s, version + 1, input).0.tables)
  {
    hide Good, ViewOf, Upgrade, Applied, ForeignKeysHold;
    reached, adopted := UpgradePreserves(s, version, server, input);
    GoodVersion(Upgrade(s, version + 1, input).0, reached, adopted);
  }

  /** However often opening fails and is repeated, with whatever identifiers and times, the
      database means what it meant at the start, no reference dangles, and exactly the versions
      up to the one reached are recorded. */
  lemma {:induction false} OpeningPreserves(s: State, version: nat, server: Option<string>, inputs: seq<Input>)
    returns (reached: nat, adopted: Option<string>)
    requires Good(s, version, server)
    ensures version <= reached && Good(OpenAll(s, inputs), reached, adopted)
    ensures ViewOf(OpenAll(s, inputs).tables, adopted, reached) == ViewOf(s.tables, server, version)
    decreases |inputs|
  {
    hide Good, ViewOf, OpenOnce;
    reached, adopted := version, server;
    if inputs != [] {
      var middle, between := OpenPreserves(s, version, server, inputs[0]);
      reached, adopted := OpeningPreserves(OpenOnce(s, inputs[0]).0, middle, between, inputs[1..]);
    }
  }

  /** An open without failures finishes the migration from wherever any earlier ones stopped. */
  lemma OpeningFinishes(s: State, version: nat, server: Option<string>, inputs: seq<Input>, last: Input)
    returns (adopted: Option<string>)
    requires Good(s, version, server) && forall v :: !last.fails(v)
    ensures var end := OpenOnce(OpenAll(s, inputs), last);
            && end.1 == Migrated && Good(end.0, LATEST, adopted)
            && ViewOf(end.0.tables, adopted, LATEST) == ViewOf(s.tables, server, version)
  {
    hide Good, ViewOf, OpenOnce, OpenAll;
    var reached, between := OpeningPreserves(s, version, server, inputs);
    reached, adopted := OpenPreserves(OpenAll(s, inputs), reached, between, last);
  }

  // ---- what an upgrade from version 1 to version 4 does to each row ----

  /** The same identity, the role now in the grant on the adopted server, and exactly the
      administrators own the fleet. */
  ghost predicate UserUpgraded(past: Tables, next: Tables, server: string, id: string) {
    && (id in next.users <==> id in past.users)
    && (id in past.users ==>
          && next.users[id].username == past.users[id].username
          && next.users[id].passwordHash == past.users[id].passwordHash
          && next.users[id].disabled == past.users[id].disabled && next.users[id].createdAt == past.users[id].createdAt
          && (id, server) in next.grants && past.users[id].role == Some(next.grants[(id, server)].role)
          && next.users[id].fleetOwner == Some(past.users[id].role == Some(Administrator)))
  }

  /** The same session, last authenticated when it was created. */
  ghost predicate SessionUpgraded(past: Tables, next: Tables, token: string) {
    && (token in next.sessions <==> token in past.sessions)
    && (token in past.sessions ==>
          next.sessions[token] == past.sessions[token].(authenticatedAt := Some(past.sessions[token].createdAt)))
  }

  /** The same backup, owned by the adopted server. */
  ghost predicate BackupUpgraded(past: Tables, next: Tables, server: string, id: string) {
    && (id in next.backups <==> id in past.backups)
    && (id in past.backups ==> next.backups[id] == past.backups[id].(serverId := Some(server)))
  }

  /** The same event at the same stored time, attributed to no server. */
  ghost predicate EventUpgraded(past: Tables, next: Tables, id: string) {
    && (id in next.audit <==> id in past.audit)
    && (id in past.audit ==>
          next.audit[id] == past.audit[id].(identity := Some(Identity("user", None, None, None, None, None, 1))))
  }

  /** The ciphertext moved from the settings to the server, byte for byte. */
  ghost predicate SecretMoved(past: Tables, next: Tables, server: string) {
    var key := "integration.rcon.v1";
    && key !in next.settings
    && (key in past.settings <==> (server, key) in next.secrets)
    && (key in past.settings ==> next.secrets[(server, key)] == past.settings[key])
    && (forall k | k != key :: (k in next.settings <==> k in past.settings) &&
                               (k in past.settings ==> next.settings[k] == past.settings[k]))
  }

  ghost predicate Upgraded(past: Tables, next: Tables, server: string) {
    && (forall id :: UserUpgraded(past, next, server, id))
    && (forall token :: SessionUpgraded(past, next, token))
    && (forall id :: BackupUpgraded(past, next, server, id))
    && (forall id :: EventUpgraded(past, next, id))
    && SecretMoved(past, next, server)
    && next.auditIsAppendOnly
  }

  lemma UsersAreUpgraded(past: Tables, next: Tables, server: string, id: string)
    requires Schema(past, 1, None) && Schema(next, 4, Some(server))
    requires ViewOf(next, Some(server), 4) == ViewOf(past, None, 1)
    ensures UserUpgraded(past, next, server, id)
  {
    hide ReadAudit, ReadSessions, ReadBackups, ReadSecret, FleetShape, BackupsShape, AuditShape, SessionsShape;
    var read := ReadAccounts(next.users, next.grants, Some(server));
    assert read == ReadAccounts(past.users, past.grants, None);
    assert id in read <==> id in next.users;
    assert id in read <==> id in past.users;
    if id in past.users {
      assert read[id] == AccountOf(next.users[id], id, next.grants, Some(server));
      assert read[id] == AccountOf(past.users[id], id, past.grants, None);
      assert (id, server) in next.grants;
    }
  }

  lemma SessionsAreUpgraded(past: Tables, next: Tables, server: string, token: string)
    requires Schema(past, 1, None) && Schema(next, 4, Some(server))
    requires ViewOf(next, Some(server), 4) == ViewOf(past, None, 1)
    ensures SessionUpgraded(past, next, token)
  {
    hide ReadAudit, ReadAccounts, ReadBackups, ReadSecret, FleetShape, BackupsShape, AuditShape, UsersShape;
    var read := ReadSessions(next.sessions);
    assert read == ReadSessions(past.sessions);
    assert token in read <==> token in next.sessions;
    assert token in read <==> token in past.sessions;
  }

  lemma BackupsAreUpgraded(past: Tables, next: Tables, server: string, id: string)
    requires Schema(past, 1, None) && Schema(next, 4, Some(server))
    requires ViewOf(next, Some(server), 4) == ViewOf(past, None, 1)
    ensures BackupUpgraded(past, next, server, id)
  {
    hide ReadAudit, ReadAccounts, ReadSessions, ReadSecret, FleetShape, SessionsShape, AuditShape, UsersShape;
    var read := ReadBackups(next.backups);
    assert read == ReadBackups(past.backups);
    assert id in read <==> id in next.backups;
    assert id in read <==> id in past.backups;
  }

  lemma HistoryIsUpgraded(past: Tables, next: Tables, server: string, id: string)
    requires Schema(past, 1, None) && Schema(next, 4, Some(server))
    requires ViewOf(next, Some(server), 4) == ViewOf(past, None, 1)
    ensures EventUpgraded(past, next, id)
  {
    hide Normalise, ReadBackups, ReadAccounts, ReadSessions, ReadSecret,
         FleetShape, SessionsShape, BackupsShape, UsersShape;
    var read := ReadAudit(next.audit, false);
    assert read == ReadAudit(past.audit, false);
    assert id in read <==> id in next.audit;
    assert id in read <==> id in past.audit;
  }

  lemma EverythingIsUpgraded(past: Tables, next: Tables, server: string)
    requires Schema(past, 1, None) && Schema(next, 4, Some(server))
    requires ViewOf(next, Some(server), 4) == ViewOf(past, None, 1)
    ensures Upgraded(past, next, server)
  {
    hide UserUpgraded, SessionUpgraded, BackupUpgraded, EventUpgraded, SecretMoved, Schema, ViewOf;
    forall id {
      UsersAreUpgraded(past, next, server, id);
    }
    forall token {
      SessionsAreUpgraded(past, next, server, token);
    }
    forall id {
      BackupsAreUpgraded(past, next, server, id);
    }
    forall id {
      HistoryIsUpgraded(past, next, server, id);
    }
    SecretIsMoved(past, next, server);
    assert next.auditIsAppendOnly by { AppendOnlyFrom3(next, 4, Some(server)); }
  }

  lemma AppendOnlyFrom3(t: Tables, version: nat, server: Option<string>)
    requires Schema(t, version, server) && version >= 3
    ensures t.auditIsAppendOnly
  {
  }

  lemma SecretIsMoved(past: Tables, next: Tables, server: string)
    requires Schema(past, 1, None) && Schema(next, 4, Some(server))
    requires ViewOf(next, Some(server), 4) == ViewOf(past, None, 1)
    ensures SecretMoved(past, next, server)
  {
    hide ReadAudit, ReadBackups, ReadAccounts, ReadSessions, AuditShape, SessionsShape, BackupsShape, UsersShape;
    var mine, theirs := next.settings - {RCON_SECRET}, past.settings - {RCON_SECRET};
    assert mine == theirs;
    forall k | k != RCON_SECRET
      ensures k in next.settings <==> k in past.settings
      ensures k in past.settings ==> next.settings[k] == past.settings[k]
    {
      assert k in mine <==> k in next.settings;
      assert k in theirs <==> k in past.settings;
      assert k in mine ==> mine[k] == next.settings[k];
      assert k in theirs ==> theirs[k] == past.settings[k];
    }
  }

  // ---- the adopted server ----

  /** The fleet is what this open was configured with: one node named "local" with the Docker
      address, one server on it with every configured value, and all roles granted on that server
      by the migration, then. */
  ghost predicate AdoptedFrom(t: Tables, chosen: Input) {
    && t.nodes.Keys == {chosen.nodeId} && t.servers.Keys == {chosen.serverId}
    && var node, server := t.nodes[chosen.nodeId], t.servers[chosen.serverId];
       && node.name == "local" && node.dockerBaseUrl == chosen.adoption.dockerBaseUrl && node.createdAt == chosen.now
       && server.slug == "default" && server.nodeId == chosen.nodeId && server.createdAt == chosen.now
       && server.adoption.containerName == chosen.adoption.containerName
       && server.adoption.dataDir == chosen.adoption.dataDir && server.adoption.backupDir == chosen.adoption.backupDir
       && server.adoption.worldName == chosen.adoption.worldName
       && server.adoption.rconAddress == chosen.adoption.rconAddress
       && server.adoption.dockerBaseUrl == chosen.adoption.dockerBaseUrl
       && (forall k | k in t.grants ::
             k.1 == chosen.serverId && t.grants[k].grantedBy == "migration" && t.grants[k].grantedAt == chosen.now)
  }

  predicate SameFleet(a: Tables, b: Tables) {
    a.nodes == b.nodes && a.servers == b.servers && a.grants == b.grants
  }

  lemma Migrate2Adopts(t: Tables, input: Input)
    requires Schema(t, 1, None)
    ensures AdoptedFrom(Migrate2(t, input), input)
  {
    Schema1Parts(t);
    GrantedByMigration(t.users, input);
    AdoptedTables(t, input);
    hide Schema, RebuiltUsers, OwnedBackups, UsersShape, BackupsShape, GrantsFor;
  }

  lemma GrantedByMigration(users: Users, input: Input)
    ensures var grants := GrantsFor(users, input);
            forall k | k in grants ::
              k.1 == input.serverId && grants[k].grantedBy == "migration" && grants[k].grantedAt == input.now
  {
  }

  lemma {:induction false} LaterKeepFleet(s: State, version: nat, input: Input)
    requires version >= 3
    ensures SameFleet(Upgrade(s, version, input).0.tables, s.tables)
    decreases 5 - version
  {
    if version <= LATEST && !input.fails(version) {
      LaterKeepFleet(ApplyVersion(s, version, input), version + 1, input);
    }
  }

  lemma FleetStays(a: Tables, b: Tables, chosen: Input)
    requires AdoptedFrom(a, chosen) && SameFleet(b, a)
    ensures AdoptedFrom(b, chosen)
  {
  }

  /** One open of a version-1 database changes nothing, or adopts what it is configured with. */
  lemma OpenAdopts(s: State, input: Input)
    requires Good(s, 1, None)
    ensures input.fails(2) ==> OpenOnce(s, input).0 == s
    ensures !input.fails(2) ==> AdoptedFrom(OpenOnce(s, input).0.tables, input)
  {
    GoodVersion(s, 1, None);
    assert Schema(s.tables, 1, None);
    hide Good, Schema, ForeignKeysHold, Applied, OpenOnce, AdoptedFrom, Migrate2;
    OpenAtVersion(s, 1, input);
    if !input.fails(2) {
      var next := ApplyVersion(s, 2, input);
      Migrate2Adopts(s.tables, input);
      LaterKeepFleet(next, 3, input);
      assert Upgrade(s, 2, input) == Upgrade(next, 3, input);
      hide Upgrade, SameFleet;
      FleetStays(next.tables, Upgrade(next, 3, input).0.tables, input);
    }
  }

  lemma {:induction false} AdoptedStays(s: State, version: nat, server: Option<string>, chosen: Input,
                                        inputs: seq<Input>)
    requires Good(s, version, server) && version >= 2 && AdoptedFrom(s.tables, chosen)
    ensures AdoptedFrom(OpenAll(s, inputs).tables, chosen)
    decreases |inputs|
  {
    if inputs != [] {
      GoodVersion(s, version, server);
      OpenAtVersion(s, version, inputs[0]);
      hide Good, OpenOnce, AdoptedFrom, Applied, ForeignKeysHold, ViewOf, Upgrade, SameFleet;
      var next := OpenOnce(s, inputs[0]).0;
      if version < LATEST {
        LaterKeepFleet(s, version + 1, inputs[0]);
        FleetStays(s.tables, next.tables, chosen);
      }
      var reached, adopted := OpenPreserves(s, version, server, inputs[0]);
      AdoptedStays(next, reached, adopted, chosen, inputs[1..]);
    }
  }

  /** Over any opens, the fleet is that of the first that got past version 2. */
  lemma {:induction false} OpensAdopt(s: State, inputs: seq<Input>) returns (chosen: Option<Input>)
    requires Good(s, 1, None)
    ensures chosen.None? ==> forall i | 0 <= i < |inputs| :: inputs[i].fails(2)
    ensures chosen.Some? ==> chosen.value in inputs && AdoptedFrom(OpenAll(s, inputs).tables, chosen.value)
    decreases |inputs|
  {
    hide Good, OpenOnce, AdoptedFrom, ViewOf;
    chosen := None;
    if inputs != [] {
      OpenAdopts(s, inputs[0]);
      if inputs[0].fails(2) {
        chosen := OpensAdopt(s, inputs[1..]);
      } else {
        chosen := Some(inputs[0]);
        var reached, adopted := OpenPreserves(s, 1, None, inputs[0]);
        assert reached >= 2;
        AdoptedStays(OpenOnce(s, inputs[0]).0, reached, adopted, inputs[0], inputs[1..]);
      }
    }
  }

  lemma {:induction false} OpenAllSnoc(s: State, inputs: seq<Input>, last: Input)
    ensures OpenAll(s, inputs + [last]) == OpenOnce(OpenAll(s, inputs), last).0
    decreases |inputs|
  {
    hide OpenOnce;
    if inputs == [] {
      assert inputs + [last] == [last] && [last][1..] == [];
      assert OpenAll(OpenOnce(s, last).0, []) == OpenOnce(s, last).0;
    } else {
      assert (inputs + [last])[1..] == inputs[1..] + [last];
      OpenAllSnoc(OpenOnce(s, inputs[0]).0, inputs[1..], last);
    }
  }

  /** A version-1 database, opened any number of times with any failures and then once without,
      is at version 4 with every row carried over, no dangling reference, and the fleet that one of
      the opens was configured with. */
  lemma VersionOneUpgrades(s: State, inputs: seq<Input>, last: Input) returns (server: string, chosen: Input)
    requires Good(s, 1, None) && forall v :: !last.fails(v)
    ensures var end := OpenOnce(OpenAll(s, inputs), last);
      && end.1 == Migrated && Good(end.0, 4, Some(server)) && Upgraded(s.tables, end.0.tables, server)
      && chosen in inputs + [last] && server == chosen.serverId && AdoptedFrom(end.0.tables, chosen)
  {
    hide OpenOnce, OpenAll, Schema, ViewOf, ForeignKeysHold, Upgraded, AdoptedFrom;
    var adopted := OpeningFinishes(s, 1, None, inputs, last);
    var end := OpenOnce(OpenAll(s, inputs), last).0;
    SchemaServer(end.tables, LATEST, adopted);
    server := adopted.value;
    EverythingIsUpgraded(s.tables, end.tables, server);
    var all := inputs + [last];
    assert all[|inputs|] == last;
    var some := OpensAdopt(s, all);
    chosen := some.value;
    OpenAllSnoc(s, inputs, last);
    SameServer(end.tables, server, chosen);
  }

  lemma SameServer(t: Tables, server: string, chosen: Input)
    requires Schema(t, 4, Some(server)) && AdoptedFrom(t, chosen)
    ensures server == chosen.serverId
  {
    hide UsersShape, BackupsShape, AuditShape, SessionsShape;
    assert server in t.servers.Keys;
  }

  /** A ledger beyond version 4 is refused and left as it is, whatever else it records; one that
      ends at version 4 is opened as it is. */
  lemma NewerIsRefused(s: State, input: Input)
    ensures (exists v :: v in s.ledger && v > 4) ==> OpenOnce(s, input) == (s, TooNew)
    ensures 4 in s.ledger && (forall v | v in s.ledger :: v <= 4) ==> OpenOnce(s, input) == (s, Migrated)
    ensures OpenOnce(s, input).1 == TooNew ==> exists v :: v in s.ledger && v > 4
  {
    var applied := Applied(s.ledger);
    assert forall v :: v in s.ledger <==> v in s.ledger.Keys;
    hide Applied, Upgrade, ForeignKeysHold;
  }

  /** Why foreign keys are off during the rebuild: with them on, no session would survive it. */
  method RebuildWithForeignKeysOn(s: State) returns (database: Database)
    requires ForeignKeysHold(s.tables)
    ensures fresh(database) && database.tables.sessions == map[] && database.tables.grants == map[]
  {
    database := new Database(s);
    database.ReplaceUsers(RebuiltUsers(s.tables.users));
  }

  // ---- the audit times ----

  lemma {:induction false} DigitsOfZero(width: nat)
    ensures Digits(0, width) == Zeros(width)
  {
    if width > 0 {
      DigitsOfZero(width - 1);
    }
  }

  /** Migration 1 turns every exact-second time into the full-width form, and leaves full-width
      times alone; a trimmed fraction it does not touch. So it makes a written time full width if
      and only if the time has no fraction, or one that needs all nine digits. */
  lemma NormaliseIsFullWidth(c: Civil)
    requires c.Valid()
    ensures Normalise(FormatAuditTime(c)) == FormatAuditTime(c)
    ensures c.nano == 0 ==> Normalise(FormatTime(c)) == FormatAuditTime(c)
    ensures Fraction(c) != "" ==> Normalise(FormatTime(c)) == FormatTime(c)
    ensures Normalise(FormatTime(c)) == FormatAuditTime(c) <==> c.nano == 0 || c.nano % 10 != 0
    ensures forall other: string :: |other| != 20 || other[19] != 'Z' ==> Normalise(other) == other
  {
    if c.nano == 0 {
      FractionOfZero(9);
      DigitsOfZero(9);
      assert Whole(c) + "Z" == FormatTime(c);
      assert (Whole(c) + "Z")[..19] == Whole(c);
      assert "." + (Zeros(9) + "Z") == ".000000000Z";
    } else if c.nano % 10 != 0 {
      UntrimmedIsFull(c);
    } else {
      TrimmedSortsAfterFull(c);
      LessIrreflexive(FormatTime(c));
      FractionRemains(c);
    }
  }

  lemma FractionRemains(c: Civil)
    requires c.Valid()
    ensures Fraction(c) == "" ==> c.nano == 0
  {
    Widths();
    TrimZerosSplits(Digits(c.nano, 9));
    DigitsOfZero(9);
    NumberOfDigits(c.nano, 9);
    NumberOfDigits(0, 9);
    if Fraction(c) == "" {
      assert Digits(c.nano, 9) == Digits(0, 9);
    }
  }
}
