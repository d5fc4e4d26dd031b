/**
 * The control-plane tables of packages/relay/src/db.ts and the statements that
 * packages/relay/src/control-plane.ts runs on them. Each statement is atomic; what happens between
 * two of them is the business of module GrantRelay. A token stands for its own hash.
 */
module GrantStore {
  import opened Options

  datatype GrantType = ServerRegister | ClientConnect

  datatype GrantRow = GrantRow(
    grantType: GrantType, token: string, userId: string, sessionId: string, deviceId: string,
    relayUsername: string, installId: Option<string>, createdAt: int, expiresAt: int,
    consumedAt: Option<int>, revokedAt: Option<int>)

  datatype SessionRow = SessionRow(userId: string, expiresAt: int, revokedAt: Option<int>)

  datatype DeviceRow = DeviceRow(
    userId: string, installId: string, deviceName: string, deviceType: string, relayUsername: string,
    createdAt: int, updatedAt: int, lastSeenAt: int)

  /** The tables by primary key. */
  datatype Db = Db(grants: map<string, GrantRow>, sessions: map<string, SessionRow>, devices: map<string, DeviceRow>)

  const EMPTY_DB := Db(map[], map[], map[])

  /** Both kinds of grant live for one minute. */
  const GRANT_TTL_MS := 60_000

  datatype GrantError = GrantInvalid | GrantConsumed | GrantExpired | ServerSessionRevoked

  // ---------- the statements ----------

  predicate SessionActive(db: Db, sessionId: string, now: int) {
    && sessionId in db.sessions
    && db.sessions[sessionId].revokedAt == None && db.sessions[sessionId].expiresAt > now
  }

  predicate TokenTaken(db: Db, token: string) {
    exists id | id in db.grants :: db.grants[id].token == token
  }

  ghost function GrantByToken(db: Db, token: string): Option<string> {
    if id: string :| id in db.grants && db.grants[id].token == token then Some(id) else None
  }

  /** `INSERT INTO relay_grants`: refused when the id or the token is already there. */
  predicate GrantInsertable(db: Db, id: string, row: GrantRow) {
    id !in db.grants && !TokenTaken(db, row.token)
  }

  function GrantInserted(db: Db, id: string, row: GrantRow): Db {
    if GrantInsertable(db, id, row) then db.(grants := db.grants[id := row]) else db
  }

  /** `UPDATE relay_grants ... WHERE id = ? AND consumed_at IS NULL` changes one row or none. */
  predicate Markable(db: Db, id: string) {
    id in db.grants && db.grants[id].consumedAt == None
  }

  function Marked(db: Db, id: string, at: int): Db {
    if Markable(db, id) then db.(grants := db.grants[id := db.grants[id].(consumedAt := Some(at))]) else db
  }

  /** `INSERT INTO devices`: refused when the id, the relay username or (user, install) is already there. */
  predicate DeviceInsertable(db: Db, id: string, row: DeviceRow) {
    && id !in db.devices
    && forall d | d in db.devices ::
         && db.devices[d].relayUsername != row.relayUsername
         && !(db.devices[d].userId == row.userId && db.devices[d].installId == row.installId)
  }

  function DeviceInserted(db: Db, id: string, row: DeviceRow): Db {
    if DeviceInsertable(db, id, row) then db.(devices := db.devices[id := row]) else db
  }

  /** `UPDATE devices SET device_name, device_type, updated_at, last_seen_at`: nothing else is ever updated. */
  function DeviceUpdated(db: Db, id: string, name: string, deviceType: string, now: int): Db {
    if id in db.devices
    then db.(devices := db.devices[id := db.devices[id].(deviceName := name, deviceType := deviceType,
                                                         updatedAt := now, lastSeenAt := now)])
    else db
  }

  function SessionInserted(db: Db, id: string, userId: string, expiresAt: int): Db {
    if id in db.sessions then db else db.(sessions := db.sessions[id := SessionRow(userId, expiresAt, None)])
  }

  function SessionRevoked(db: Db, id: string, now: int): Db {
    if id in db.sessions then db.(sessions := db.sessions[id := db.sessions[id].(revokedAt := Some(now))]) else db
  }

  // ---------- what every statement keeps ----------

  /** The grant names a device of its own user, with the device's own route. */
  predicate Routed(db: Db, userId: string, deviceId: string, relayUsername: string) {
    && deviceId in db.devices
    && db.devices[deviceId].userId == userId && db.devices[deviceId].relayUsername == relayUsername
  }

  /** `relay_username TEXT NOT NULL UNIQUE`. */
  predicate RoutesUnique(devices: map<string, DeviceRow>) {
    forall d, e | d in devices && e in devices && devices[d].relayUsername == devices[e].relayUsername :: d == e
  }

  /** The unique index on `(user_id, install_id)`. */
  predicate InstallsUnique(devices: map<string, DeviceRow>) {
    forall d, e | d in devices && e in devices && devices[d].userId == devices[e].userId && devices[d].installId == devices[e].installId ::
      d == e
  }

  /** `token_hash TEXT NOT NULL UNIQUE`. */
  predicate TokensUnique(grants: map<string, GrantRow>) {
    forall g, h | g in grants && h in grants && grants[g].token == grants[h].token :: g == h
  }

  /** Every grant is routed, and was consumed, if at all, before it expired. */
  predicate GrantsSound(db: Db) {
    forall g | g in db.grants ::
      var row := db.grants[g];
      && Routed(db, row.userId, row.deviceId, row.relayUsername)
      && (row.consumedAt.Some? ==> row.consumedAt.value < row.expiresAt)
  }

  predicate Sound(db: Db) {
    RoutesUnique(db.devices) && InstallsUnique(db.devices) && TokensUnique(db.grants) && GrantsSound(db)
  }

  /** The row with everything but `consumed_at` fixed. */
  predicate SameGrant(a: GrantRow, b: GrantRow) {
    a.(consumedAt := None) == b.(consumedAt := None)
  }

  /** What stays true of the tables forever: routes, grants and once-set consumption marks. */
  predicate Grows(db: Db, later: Db) {
    && (forall d | d in db.devices ::
          && d in later.devices && later.devices[d].userId == db.devices[d].userId
          && later.devices[d].relayUsername == db.devices[d].relayUsername && later.devices[d].installId == db.devices[d].installId)
    && (forall g | g in db.grants ::
          && g in later.grants && SameGrant(later.grants[g], db.grants[g])
          && (db.grants[g].consumedAt.Some? ==> later.grants[g].consumedAt == db.grants[g].consumedAt))
  }

  /** A relay username determines the device and the account behind it. */
  lemma RouteDeterminesAccount(db: Db, userA: string, deviceA: string, userB: string, deviceB: string, relayUsername: string)
    requires Sound(db) && Routed(db, userA, deviceA, relayUsername) && Routed(db, userB, deviceB, relayUsername)
    ensures deviceA == deviceB && userA == userB
  {
  }

  lemma GrantInsertedKeeps(db: Db, id: string, row: GrantRow)
    requires Sound(db) && Routed(db, row.userId, row.deviceId, row.relayUsername) && row.consumedAt == None
    ensures Sound(GrantInserted(db, id, row)) && Grows(db, GrantInserted(db, id, row))
  {
  }

  lemma MarkedKeeps(db: Db, id: string, at: int)
    requires Sound(db) && id in db.grants && at < db.grants[id].expiresAt
    ensures Sound(Marked(db, id, at)) && Grows(db, Marked(db, id, at))
  {
  }

  lemma DeviceInsertedKeeps(db: Db, id: string, row: DeviceRow)
    requires Sound(db)
    ensures Sound(DeviceInserted(db, id, row)) && Grows(db, DeviceInserted(db, id, row))
  {
    var n := DeviceInserted(db, id, row);
    assert RoutesUnique(n.devices) && InstallsUnique(n.devices);
    SameRoutes(db, n);
  }

  lemma RoutesStayUnique(devices: map<string, DeviceRow>, n: map<string, DeviceRow>)
    requires RoutesUnique(devices)
    requires InstallsUnique(devices)
    requires forall d | d in n ::
               && d in devices && n[d].relayUsername == devices[d].relayUsername
               && n[d].userId == devices[d].userId && n[d].installId == devices[d].installId
    ensures RoutesUnique(n) && InstallsUnique(n)
  {
  }

  lemma DeviceUpdatedRows(db: Db, id: string, name: string, deviceType: string, now: int)
    ensures var n := DeviceUpdated(db, id, name, deviceType, now);
            && n.grants == db.grants && n.devices.Keys == db.devices.Keys
            && forall d | d in db.devices ::
                 && n.devices[d].userId == db.devices[d].userId && n.devices[d].relayUsername == db.devices[d].relayUsername
                 && n.devices[d].installId == db.devices[d].installId
  {
  }

  lemma RoutesKept(db: Db, n: Db)
    requires Sound(db) && n.grants == db.grants && n.devices.Keys == db.devices.Keys
    requires forall d | d in db.devices ::
               && n.devices[d].userId == db.devices[d].userId && n.devices[d].relayUsername == db.devices[d].relayUsername
               && n.devices[d].installId == db.devices[d].installId
    ensures Sound(n) && Grows(db, n)
  {
    assert forall d :: d in n.devices <==> d in db.devices.Keys;
    RoutesStayUnique(db.devices, n.devices);
    SameRoutes(db, n);
  }

  lemma DeviceUpdatedKeeps(db: Db, id: string, name: string, deviceType: string, now: int)
    requires Sound(db)
    ensures Sound(DeviceUpdated(db, id, name, deviceType, now)) && Grows(db, DeviceUpdated(db, id, name, deviceType, now))
  {
    DeviceUpdatedRows(db, id, name, deviceType, now);
    RoutesKept(db, DeviceUpdated(db, id, name, deviceType, now));
  }

  /** Device statements leave the routes that grants rely on. */
  lemma SameRoutes(db: Db, n: Db)
    requires Sound(db) && n.grants == db.grants
    requires forall d | d in db.devices ::
               && d in n.devices && n.devices[d].userId == db.devices[d].userId
               && n.devices[d].relayUsername == db.devices[d].relayUsername && n.devices[d].installId == db.devices[d].installId
    ensures GrantsSound(n) && Grows(db, n)
  {
  }

  lemma SessionsDoNotMatter(db: Db, sessions: map<string, SessionRow>)
    requires Sound(db)
    ensures Sound(db.(sessions := sessions)) && Grows(db, db.(sessions := sessions))
  {
  }

  /** No single statement on the sessions revives a revoked one; GrantResults.RevokedForever is about runs. */
  lemma RevocationIsFinal(db: Db, id: string, other: string, userId: string, expiresAt: int, now: int, later: int)
    requires id in db.sessions
    ensures !SessionActive(SessionInserted(SessionRevoked(db, id, now), other, userId, expiresAt), id, later)
    ensures !SessionActive(SessionRevoked(SessionRevoked(db, id, now), other, now), id, later)
  {
  }

  // ---------- the store ----------

  /** The tables as the service updates them in place. */
  class Store {
    var db: Db

    constructor ()
      ensures db == EMPTY_DB && Sound(db)
    {
      db := EMPTY_DB;
    }

    method MarkRelayGrantConsumed(id: string, consumedAt: int) returns (consumed: bool)
      modifies this
      ensures consumed == Markable(old(db), id)
      ensures db == Marked(old(db), id, consumedAt)
    {
      if id in db.grants && db.grants[id].consumedAt == None {
        db := db.(grants := db.grants[id := db.grants[id].(consumedAt := Some(consumedAt))]);
        return true;
      }
      return false;
    }

    method CreateRelayGrant(id: string, grantType: GrantType, token: string, userId: string, sessionId: string,
                            deviceId: string, relayUsername: string, installId: Option<string>, now: int)
      returns (inserted: bool)
      modifies this
      ensures var row := GrantRow(grantType, token, userId, sessionId, deviceId, relayUsername, installId,
                                  now, now + GRANT_TTL_MS, None, None);
              inserted == GrantInsertable(old(db), id, row) && db == GrantInserted(old(db), id, row)
      ensures old(Sound(db)) && Routed(old(db), userId, deviceId, relayUsername) ==> Sound(db) && Grows(old(db), db)
    {
      var row := GrantRow(grantType, token, userId, sessionId, deviceId, relayUsername, installId,
                          now, now + GRANT_TTL_MS, None, None);
      inserted := GrantInsertable(db, id, row);
      if inserted {
        if Sound(db) && Routed(db, userId, deviceId, relayUsername) { GrantInsertedKeeps(db, id, row); }
        db := db.(grants := db.grants[id := row]);
      }
    }

    /**
     * `consumeRelayGrant` when nothing runs in between: the checks in the order the service makes
     * them, and on success exactly one mark, set to an instant before the grant's expiry.
     */
    method ConsumeRelayGrant(token: string, expectedType: GrantType, now: int) returns (result: Result<string, GrantError>)
      requires Sound(db)
      modifies this
      ensures Sound(db) && Grows(old(db), db)
      ensures result.Ok? <==>
                && token != ""
                && exists id | id in old(db).grants ::
                     var row := old(db).grants[id];
                     && row.token == token && row.grantType == expectedType && row.revokedAt == None
                     && row.consumedAt == None && row.expiresAt > now
                     && row.sessionId in old(db).sessions && old(db).sessions[row.sessionId].revokedAt == None
                     && old(db).sessions[row.sessionId].expiresAt > now
      ensures result.Ok? ==> result.value in old(db).grants && old(db).grants[result.value].token == token
      ensures db == if result.Ok? then Marked(old(db), result.value, now) else old(db)
      ensures token == "" || (forall id | id in old(db).grants :: old(db).grants[id].token != token) ==> result == Err(GrantInvalid)
      ensures forall id | id in old(db).grants && old(db).grants[id].token == token != "" ::
                var row, sessions := old(db).grants[id], old(db).sessions;
                result == if row.grantType != expectedType || row.revokedAt.Some? then Err(GrantInvalid)
                          else if row.consumedAt.Some? then Err(GrantConsumed)
                          else if row.expiresAt <= now then Err(GrantExpired)
                          else if row.sessionId !in sessions || sessions[row.sessionId].revokedAt.Some?
                                  || sessions[row.sessionId].expiresAt <= now then Err(ServerSessionRevoked)
                          else Ok(id)
    {
      if token == "" || !TokenTaken(db, token) {
        return Err(GrantInvalid);
      }
      var id :| id in db.grants && db.grants[id].token == token;
      var grant := db.grants[id];
      assert forall other | other in db.grants && db.grants[other].token == token :: other == id;
      if grant.grantType != expectedType {
        return Err(GrantInvalid);
      }
      if grant.revokedAt.Some? {
        return Err(GrantInvalid);
      }
      if grant.consumedAt.Some? {
        return Err(GrantConsumed);
      }
      if grant.expiresAt <= now {
        return Err(GrantExpired);
      }
      if !SessionActive(db, grant.sessionId, now) {
        return Err(ServerSessionRevoked);
      }
      MarkedKeeps(db, id, now);
      var consumed := MarkRelayGrantConsumed(id, now);
      assert consumed;
      return Ok(id);
    }

    /**
     * `registerOrUpdateDevice` when nothing runs in between: the caller's device of that
     * installation is refreshed, or a new one is inserted unless its route or id is taken.
     */
    method RegisterOrUpdateDevice(userId: string, installId: string, name: string, deviceType: string,
                                  freshId: string, freshRoute: string, now: int)
      returns (result: Result<string, string>)
      requires Sound(db)
      modifies this
      ensures Sound(db) && Grows(old(db), db)
      ensures installId == "" || name == "" || deviceType == "" ==> result.Err? && db == old(db)
      ensures result.Ok? ==>
                && result.value in db.devices
                && db.devices[result.value].userId == userId && db.devices[result.value].installId == installId
                && db.devices[result.value].deviceName == name && db.devices[result.value].lastSeenAt == now
                && (result.value in old(db).devices ==>
                      db.devices[result.value].relayUsername == old(db).devices[result.value].relayUsername)
    {
      if installId == "" { return Err("invalid_install_id"); }
      if name == "" { return Err("invalid_device_name"); }
      if deviceType == "" { return Err("invalid_device_type"); }
      ghost var before := db;
      if exists d | d in db.devices :: db.devices[d].userId == userId && db.devices[d].installId == installId {
        var d :| d in db.devices && db.devices[d].userId == userId && db.devices[d].installId == installId;
        DeviceUpdatedKeeps(db, d, name, deviceType, now);
        db := DeviceUpdated(db, d, name, deviceType, now);
        return Ok(d);
      }
      var row := DeviceRow(userId, installId, name, deviceType, freshRoute, now, now, now);
      if !DeviceInsertable(db, freshId, row) {
        return Err("device_insert_failed");
      }
      DeviceInsertedKeeps(db, freshId, row);
      db := DeviceInserted(db, freshId, row);
      return Ok(freshId);
    }

    method RevokeSession(sessionId: string, now: int)
      modifies this
      ensures db == SessionRevoked(old(db), sessionId, now)
      ensures forall later :: !SessionActive(db, sessionId, later)
    {
      if sessionId in db.sessions {
        db := db.(sessions := db.sessions[sessionId := db.sessions[sessionId].(revokedAt := Some(now))]);
      }
    }
  }
}
