/**
 * The relay with grants (packages/relay/src/index.ts): a control message is handled by a task that
 * `await`s the control plane between its steps, so registrations, replacements, closes, revocations
 * and other consumers may fall between any two of them. Each step below is what runs between two
 * awaits, or one database statement.
 */
module GrantRelay {
  import opened Options
  import opened Text
  import opened RelayMaps
  import opened Registry
  import opened Connections
  import opened Handler
  import opened GS = GrantStore

  /** Why a grant is being consumed; a client remembers the waiting server it was checked against. */
  datatype Purpose =
    | ForServer(ws: Socket, username: string, installId: string, metadata: Metadata)
    | ForClient(ws: Socket, username: string, waiting: WaitingInfo)

  /** Where a suspended task resumes. `now` is read once, before the first await. */
  datatype Task =
    | Lookup(purpose: Purpose, token: string, now: int)
    | CheckSession(purpose: Purpose, id: string, row: GrantRow, now: int)
    | Mark(purpose: Purpose, id: string, row: GrantRow, now: int)
    | Holding(purpose: Purpose, id: string, row: GrantRow)
    | Cleared(ws: Socket, username: string, id: string, row: GrantRow, serverSession: string)
    | Issue(grantType: GrantType, userId: string, sessionId: string, deviceId: string,
            relayUsername: string, installId: Option<string>)

  /** What a consumed grant was finally used for; `serverSession` is that of the server the client was checked against. */
  datatype Use =
    | Registration(ws: Socket, username: string, id: string, row: GrantRow, installId: string)
    | Pairing(pair: Pair, username: string, id: string, row: GrantRow, serverSession: string,
              serverAuth: Option<Auth>, server: Option<ActiveServer>)

  datatype Sys = Sys(h: Host, db: Db, clock: int, tasks: map<nat, Task>, next: nat, uses: seq<Use>, marks: seq<string>)

  /** A relay that has just been started: no sockets yet, whatever the tables hold, `marks` listing what was consumed before. */
  ghost predicate IsStart(s: Sys) {
    && s.h == Started(s.h.rows) && s.tasks == map[] && s.uses == []
    && Sound(s.db) && MarksExact(s.db, s.marks)
  }

  predicate HasConsumed(db: Db, id: string) {
    id in db.grants && db.grants[id].consumedAt.Some?
  }

  /** The marks made so far, each once. */
  predicate MarksExact(db: Db, marks: seq<string>) {
    && (forall id | id in marks :: HasConsumed(db, id))
    && (forall id | id in db.grants && HasConsumed(db, id) :: id in marks)
    && (forall i, j | 0 <= i < j < |marks| :: marks[i] != marks[j])
  }

  const HEARTBEAT_OFFLINE_MS := 60_000

  datatype Event =
    | Received(ws: Socket, frame: Frame)
    | Gone(ws: Socket)
    | Advance(task: nat, freshId: string, freshToken: string)
    | Elapse(ms: nat)
    | Login(sessionId: string, userId: string, ttl: nat)
    | Revoke(sessionId: string)
    | NewDevice(deviceId: string, device: DeviceRow)
    | Heartbeat(deviceId: string, name: string, deviceType: string)
    | AskServerGrant(userId: string, sessionId: string, deviceId: string, relayUsername: string, installId: string)
    | AskClientGrant(userId: string, sessionId: string, deviceId: string)

  // ---------- the steps ----------

  function Expected(p: Purpose): GrantType {
    if p.ForServer? then GS.ServerRegister else GS.ClientConnect
  }

  function Spawned(s: Sys, t: Task): Sys {
    s.(tasks := s.tasks[s.next := t], next := s.next + 1)
  }

  function Resumed(s: Sys, k: nat, t: Task): Sys {
    s.(tasks := s.tasks[k := t])
  }

  /** The suspended handler throws or returns: it answers its socket, asks it to close, and is gone. */
  function Ended(s: Sys, k: nat): Sys {
    s.(tasks := s.tasks - {k})
  }

  function TokenOf(grant: Option<string>): string {
    if grant.Some? then Trim(grant.value) else ""
  }

  /** `onMessage` up to its first await. */
  function Receive(s: Sys, ws: Socket, frame: Frame): Sys {
    if ws in s.h.closed then s
    else if ConnOf(s.h, ws).paired then s.(h := ForwardEffect(s.h, ws, frame.data, frame.isBinary))
    else
      var s1 := s.(h := WithConn(s.h, ws, ConnOf(s.h, ws)));
      if frame.isBinary then s1
      else
        match frame.message
        case ServerRegister(u, i, metadata, grant) =>
          if TokenOf(grant) == "" then s1
          else Spawned(s1, Lookup(ForServer(ws, u, i, metadata), TokenOf(grant), s.clock))
        case ClientConnect(u, grant) =>
          var waiting := WaitingInfoOf(s.h.m, u);
          if TokenOf(grant) == "" || AvailabilityOf(s.h.m, s.h.rows, u) != Ready || waiting == None then s1
          else Spawned(s1, Lookup(ForClient(ws, u, waiting.value), TokenOf(grant), s.clock))
        case Other => s1
  }

  ghost function AfterLookup(s: Sys, k: nat, p: Purpose, token: string, now: int): Sys {
    match GrantByToken(s.db, token)
    case None => Ended(s, k)
    case Some(id) =>
      var row := s.db.grants[id];
      if row.grantType != Expected(p) || row.revokedAt.Some? || row.consumedAt.Some? || row.expiresAt <= now
      then Ended(s, k)
      else Resumed(s, k, CheckSession(p, id, row, now))
  }

  function AfterMark(s: Sys, k: nat, p: Purpose, id: string, row: GrantRow, now: int): Sys {
    if !Markable(s.db, id) then Ended(s, k)
    else Resumed(s.(db := Marked(s.db, id, now), marks := s.marks + [id]), k, Holding(p, id, row))
  }

  predicate GrantFits(row: GrantRow, username: string, installId: string) {
    && row.relayUsername == username
    && (row.installId.Some? && row.installId.value != "" ==> row.installId.value == installId)
  }

  function RegisterStep(s: Sys, k: nat, p: Purpose, id: string, row: GrantRow): Sys
    requires p.ForServer?
  {
    if !GrantFits(row, p.username, p.installId) || !Registers(s.h, p.username, p.installId) then Ended(s, k)
    else
      var auth := Auth(row.userId, row.sessionId, row.deviceId);
      Ended(s.(h := RegisterEffect(s.h, p.ws, p.username, p.installId, p.metadata, Some(auth), s.clock),
               uses := s.uses + [Registration(p.ws, p.username, id, row, p.installId)]), k)
  }

  /** The account checks of a client, in the source's order. */
  datatype Verdict = WrongRoute | NoServerAuth | AccountMismatch | Matches

  function VerdictOf(row: GrantRow, p: Purpose): Verdict
    requires p.ForClient?
  {
    if row.relayUsername != p.username then WrongRoute
    else if p.waiting.auth == None then NoServerAuth
    else if p.waiting.auth.value.userId != row.userId || p.waiting.auth.value.deviceId != row.deviceId then AccountMismatch
    else Matches
  }

  function VerifyStep(s: Sys, k: nat, p: Purpose, id: string, row: GrantRow): Sys
    requires p.ForClient?
  {
    if VerdictOf(row, p) != Matches || !SessionActive(s.db, p.waiting.auth.value.sessionId, s.clock) then Ended(s, k)
    else Resumed(s, k, Cleared(p.ws, p.username, id, row, p.waiting.auth.value.sessionId))
  }

  /** What `connectClient` reports about the server it pairs with. */
  function PairingOf(m: Maps, ws: Socket, username: string, id: string, row: GrantRow, serverSession: string): Use
    requires username in m.waiting
  {
    var server := m.waiting[username];
    Pairing(Pair(server, ws), username, id, row, serverSession, Get(m.serverAuth, server), Get(m.activeServers, server))
  }

  function PairStep(s: Sys, k: nat, ws: Socket, username: string, id: string, row: GrantRow, serverSession: string): Sys {
    if !Connects(s.h, username) then Ended(s, k)
    else
      Ended(s.(h := ConnectEffect(s.h, ws, username, s.clock),
               uses := s.uses + [PairingOf(s.h.m, ws, username, id, row, serverSession)]), k)
  }

  function IssuedRow(t: Task, token: string, now: int): GrantRow
    requires t.Issue?
  {
    GrantRow(t.grantType, token, t.userId, t.sessionId, t.deviceId, t.relayUsername, t.installId,
             now, now + GRANT_TTL_MS, None, None)
  }

  ghost function Resume(s: Sys, k: nat, freshId: string, freshToken: string): Sys
    requires k in s.tasks
  {
    match s.tasks[k]
    case Lookup(p, token, now) => AfterLookup(s, k, p, token, now)
    case CheckSession(p, id, row, now) =>
      if SessionActive(s.db, row.sessionId, s.clock) then Resumed(s, k, Mark(p, id, row, now)) else Ended(s, k)
    case Mark(p, id, row, now) => AfterMark(s, k, p, id, row, now)
    case Holding(p, id, row) =>
      if p.ForServer? then RegisterStep(s, k, p, id, row) else VerifyStep(s, k, p, id, row)
    case Cleared(ws, username, id, row, serverSession) => PairStep(s, k, ws, username, id, row, serverSession)
    case Issue(_, _, _, _, _, _) =>
      Ended(s.(db := GrantInserted(s.db, freshId, IssuedRow(s.tasks[k], freshToken, s.clock))), k)
  }

  ghost function Step(s: Sys, e: Event): Sys {
    match e
    case Received(ws, frame) => Receive(s, ws, frame)
    case Gone(ws) => if ws in s.h.closed then s else s.(h := CloseEffect(s.h, ws))
    case Advance(k, freshId, freshToken) => if k in s.tasks then Resume(s, k, freshId, freshToken) else s
    case Elapse(ms) => s.(clock := s.clock + ms)
    case Login(id, userId, ttl) => s.(db := SessionInserted(s.db, id, userId, s.clock + ttl))
    case Revoke(id) => s.(db := SessionRevoked(s.db, id, s.clock))
    case NewDevice(id, device) => s.(db := DeviceInserted(s.db, id, device))
    case Heartbeat(id, name, deviceType) => s.(db := DeviceUpdated(s.db, id, name, deviceType, s.clock))
    case AskServerGrant(userId, sessionId, d, relayUsername, installId) =>
      if d in s.db.devices && s.db.devices[d].userId == userId && s.db.devices[d].relayUsername == relayUsername
         && s.db.devices[d].installId == installId
      then Spawned(s, Issue(GS.ServerRegister, userId, sessionId, d, relayUsername, Some(installId))) else s
    case AskClientGrant(userId, sessionId, d) =>
      if d in s.db.devices && s.db.devices[d].userId == userId
         && s.clock - s.db.devices[d].lastSeenAt <= HEARTBEAT_OFFLINE_MS
      then Spawned(s, Issue(GS.ClientConnect, userId, sessionId, d, s.db.devices[d].relayUsername, None)) else s
  }

  ghost function Run(start: Sys, events: seq<Event>): Sys {
    if events == [] then start else Step(Run(start, events[..|events| - 1]), events[|events| - 1])
  }

  // ---------- when a control message takes effect ----------

  /** Resuming this handler registers a server. */
  predicate RegistersNow(s: Sys, e: Event) {
    && e.Advance? && e.task in s.tasks && s.tasks[e.task].Holding?
    && var Holding(p, id, row) := s.tasks[e.task];
       p.ForServer? && GrantFits(row, p.username, p.installId) && Registers(s.h, p.username, p.installId)
  }

  /** Resuming this handler pairs a client. */
  predicate PairsNow(s: Sys, e: Event) {
    e.Advance? && e.task in s.tasks && s.tasks[e.task].Cleared? && Connects(s.h, s.tasks[e.task].username)
  }

  /** Whose control message takes effect. */
  function Sender(s: Sys, e: Event): Socket
    requires RegistersNow(s, e) || PairsNow(s, e)
  {
    if RegistersNow(s, e) then s.tasks[e.task].purpose.ws else s.tasks[e.task].ws
  }

  function SenderOf(u: Use): Socket {
    if u.Registration? then u.ws else u.pair.client
  }

  /** No socket has had two control messages take effect. */
  predicate OneUseEach(uses: seq<Use>) {
    forall i, j | 0 <= i < j < |uses| :: SenderOf(uses[i]) != SenderOf(uses[j])
  }

  /** A control message that takes effect does so on a socket the maps have room for. */
  predicate Free(s: Sys, e: Event) {
    && (RegistersNow(s, e) ==> MayRegister(s.h.m, Sender(s, e), s.tasks[e.task].purpose.username))
    && (PairsNow(s, e) ==> !Tracks(s.h.m, Sender(s, e)))
  }

  ghost predicate AllFree(start: Sys, events: seq<Event>) {
    events == [] || (AllFree(start, events[..|events| - 1]) && Free(Run(start, events[..|events| - 1]), events[|events| - 1]))
  }

  ghost predicate AlwaysConsistent(start: Sys, events: seq<Event>) {
    Consistent(Run(start, events).h.m) && (events == [] || AlwaysConsistent(start, events[..|events| - 1]))
  }

  function PairsOf(uses: seq<Use>): seq<Pair> {
    if uses == [] then []
    else
      var last := uses[|uses| - 1];
      PairsOf(uses[..|uses| - 1]) + if last.Pairing? then [last.pair] else []
  }
}
