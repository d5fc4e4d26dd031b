/**
 * What the relay with grants keeps on every run whatever the sockets do: the control plane's tables, the
 * accounts behind the tracked servers, and what every suspended handler and every use rests on.
 */
module GrantBooks {
  import opened Options
  import opened Sequences
  import opened RelayMaps
  import opened Registry
  import opened Connections
  import opened Handler
  import opened GrantRelay
  import opened GS = GrantStore

  // ---------- the books ----------

  /** Every tracked server carries an account, that of the device its own username belongs to. */
  predicate AuthSound(db: Db, m: Maps) {
    && m.serverAuth.Keys == m.activeServers.Keys
    && forall ws | ws in m.serverAuth ::
         Routed(db, m.serverAuth[ws].userId, m.serverAuth[ws].deviceId, m.activeServers[ws].username)
  }

  predicate Known(db: Db, id: string, row: GrantRow) {
    id in db.grants && SameGrant(db.grants[id], row)
  }

  /** A client was checked against a server with the account of that server's own username. */
  predicate PurposeSound(db: Db, p: Purpose) {
    p.ForClient? ==>
      && p.waiting.auth.Some?
      && Routed(db, p.waiting.auth.value.userId, p.waiting.auth.value.deviceId, p.waiting.server.username)
  }

  predicate TaskSound(db: Db, t: Task) {
    match t
    case Lookup(p, _, _) => PurposeSound(db, p)
    case CheckSession(p, id, row, now) =>
      PurposeSound(db, p) && Known(db, id, row) && row.grantType == Expected(p) && now < row.expiresAt && row.revokedAt == None
    case Mark(p, id, row, now) =>
      PurposeSound(db, p) && Known(db, id, row) && row.grantType == Expected(p) && now < row.expiresAt && row.revokedAt == None
    case Holding(p, id, row) =>
      PurposeSound(db, p) && Known(db, id, row) && row.grantType == Expected(p) && HasConsumed(db, id) && row.revokedAt == None
    case Cleared(_, username, id, row, _) =>
      Known(db, id, row) && row.revokedAt == None && row.grantType == GS.ClientConnect && row.relayUsername == username && HasConsumed(db, id)
    case Issue(_, userId, _, deviceId, relayUsername, _) => Routed(db, userId, deviceId, relayUsername)
  }

  /** The consumed grant that a task has not yet used up. */
  function Held(t: Task): Option<string> {
    match t
    case Holding(_, id, _) => Some(id)
    case Cleared(_, _, id, _, _) => Some(id)
    case _ => None
  }

  predicate UseSound(db: Db, u: Use) {
    && Known(db, u.id, u.row) && HasConsumed(db, u.id) && u.row.relayUsername == u.username && u.row.revokedAt == None
    && match u
       case Registration(_, _, _, row, installId) =>
         row.grantType == GS.ServerRegister && (row.installId == None || row.installId == Some("") || row.installId == Some(installId))
       case Pairing(_, _, _, row, _, serverAuth, server) =>
         && row.grantType == GS.ClientConnect
         && (serverAuth.Some? <==> server.Some?)
         && (server.Some? ==> Routed(db, serverAuth.value.userId, serverAuth.value.deviceId, server.value.username))
  }

  /** A held grant is held once and has not been used. */
  predicate HeldApart(tasks: map<nat, Task>, uses: seq<Use>) {
    && (forall j, k | j in tasks && k in tasks && j != k && Held(tasks[j]).Some? :: Held(tasks[j]) != Held(tasks[k]))
    && (forall k, i | k in tasks && 0 <= i < |uses| :: Held(tasks[k]) != Some(uses[i].id))
    && (forall i, j | 0 <= i < j < |uses| :: uses[i].id != uses[j].id)
  }

  predicate TasksSound(s: Sys) {
    && (forall k | k in s.tasks :: k < s.next && TaskSound(s.db, s.tasks[k]))
    && HeldApart(s.tasks, s.uses)
  }

  predicate UsesSound(s: Sys) {
    && (forall u | u in s.uses :: UseSound(s.db, u))
    && s.h.formed == PairsOf(s.uses)
    && MarksExact(s.db, s.marks)
  }

  predicate Books(s: Sys) {
    Sound(s.db) && AuthSound(s.db, s.h.m) && TasksSound(s) && UsesSound(s)
  }

  // ---------- growth of the tables ----------

  lemma TaskSurvives(db: Db, later: Db, t: Task)
    requires Grows(db, later) && TaskSound(db, t)
    ensures TaskSound(later, t)
  {
  }

  lemma UseSurvives(db: Db, later: Db, u: Use)
    requires Grows(db, later) && UseSound(db, u)
    ensures UseSound(later, u)
  {
  }

  lemma AllSurvive(s: Sys, later: Db)
    requires Books(s) && Grows(s.db, later)
    ensures forall k | k in s.tasks :: TaskSound(later, s.tasks[k])
    ensures forall u | u in s.uses :: UseSound(later, u)
    ensures AuthSound(later, s.h.m)
  {
    forall k | k in s.tasks ensures TaskSound(later, s.tasks[k]) {
      TaskSurvives(s.db, later, s.tasks[k]);
    }
    forall u | u in s.uses ensures UseSound(later, u) {
      UseSurvives(s.db, later, u);
    }
  }

  /** A statement that marks no grant keeps everything. */
  lemma TablesGrow(s: Sys, later: Db)
    requires Books(s) && Sound(later) && Grows(s.db, later)
    requires forall id | id in later.grants && HasConsumed(later, id) :: HasConsumed(s.db, id)
    ensures Books(s.(db := later))
  {
    AllSurvive(s, later);
    assert MarksExact(later, s.marks);
  }

  // ---------- handlers that start, go on and end ----------

  lemma QuietHost(s: Sys, h: Host)
    requires Books(s) && h.formed == s.h.formed && AuthSound(s.db, h.m)
    ensures Books(s.(h := h))
  {
  }

  lemma SpawnKeeps(s: Sys, t: Task)
    requires Books(s) && TaskSound(s.db, t) && Held(t) == None
    ensures Books(Spawned(s, t))
  {
    var n := Spawned(s, t);
    assert s.next !in s.tasks;
    assert HeldApart(n.tasks, n.uses);
  }

  lemma EndKeeps(s: Sys, k: nat)
    requires Books(s)
    ensures Books(Ended(s, k))
  {
  }

  lemma ResumeKeeps(s: Sys, k: nat, t: Task)
    requires Books(s) && k in s.tasks && TaskSound(s.db, t)
    requires Held(t) == None || Held(t) == Held(s.tasks[k])
    ensures Books(Resumed(s, k, t))
  {
    assert HeldApart(Resumed(s, k, t).tasks, s.uses);
  }

  // ---------- frames and closes ----------

  /** A waiting server that can be looked up carries an account. */
  lemma WaitingInfoSound(s: Sys, u: string)
    requires AuthSound(s.db, s.h.m) && WaitingInfoOf(s.h.m, u).Some?
    ensures forall ws :: PurposeSound(s.db, ForClient(ws, u, WaitingInfoOf(s.h.m, u).value))
  {
    assert s.h.m.waiting[u] in s.h.m.serverAuth.Keys;
  }

  lemma ClientKeeps(s: Sys, ws: Socket, u: string, token: string)
    requires Books(s) && WaitingInfoOf(s.h.m, u).Some?
    ensures Books(Spawned(s, Lookup(ForClient(ws, u, WaitingInfoOf(s.h.m, u).value), token, s.clock)))
  {
    WaitingInfoSound(s, u);
    SpawnKeeps(s, Lookup(ForClient(ws, u, WaitingInfoOf(s.h.m, u).value), token, s.clock));
  }

  lemma ReceiveKeeps(s: Sys, ws: Socket, frame: Frame)
    requires Books(s)
    ensures Books(Receive(s, ws, frame))
  {
    if ws !in s.h.closed {
      if ConnOf(s.h, ws).paired {
        QuietHost(s, ForwardEffect(s.h, ws, frame.data, frame.isBinary));
      } else {
        var s1 := s.(h := WithConn(s.h, ws, ConnOf(s.h, ws)));
        QuietHost(s, s1.h);
        if !frame.isBinary {
          match frame.message
          case ServerRegister(u, i, metadata, grant) =>
            SpawnKeeps(s1, Lookup(ForServer(ws, u, i, metadata), TokenOf(grant), s.clock));
          case ClientConnect(u, grant) =>
            if WaitingInfoOf(s.h.m, u).Some? { ClientKeeps(s1, ws, u, TokenOf(grant)); }
          case Other =>
        }
      }
    }
  }

  lemma ClosedAuthSound(db: Db, m: Maps, ws: Socket, username: Option<string>)
    requires AuthSound(db, m)
    ensures AuthSound(db, Closed(m, ws, username))
  {
  }

  lemma CloseKeepsBooks(s: Sys, ws: Socket)
    requires Books(s)
    ensures Books(s.(h := CloseEffect(s.h, ws)))
  {
    ClosedAuthSound(s.db, s.h.m, ws, ConnOf(s.h, ws).username);
    QuietHost(s, CloseEffect(s.h, ws));
  }

  // ---------- consuming a grant ----------

  lemma LookupKeeps(s: Sys, k: nat, p: Purpose, token: string, now: int)
    requires Books(s) && k in s.tasks && s.tasks[k] == Lookup(p, token, now)
    ensures Books(AfterLookup(s, k, p, token, now))
  {
    EndKeeps(s, k);
    match GrantByToken(s.db, token)
    case None =>
    case Some(id) =>
      var row := s.db.grants[id];
      if AfterLookup(s, k, p, token, now) != Ended(s, k) {
        assert TaskSound(s.db, s.tasks[k]);
        ResumeKeeps(s, k, CheckSession(p, id, row, now));
      }
  }

  lemma CheckSessionKeeps(s: Sys, k: nat, freshId: string, freshToken: string)
    requires Books(s) && k in s.tasks && s.tasks[k].CheckSession?
    ensures Books(Resume(s, k, freshId, freshToken))
  {
    var CheckSession(p, id, row, now) := s.tasks[k];
    if SessionActive(s.db, row.sessionId, s.clock) {
      assert TaskSound(s.db, s.tasks[k]);
      ResumeKeeps(s, k, Mark(p, id, row, now));
    } else {
      EndKeeps(s, k);
    }
  }

  lemma MarksExtend(db: Db, marks: seq<string>, id: string, at: int)
    requires MarksExact(db, marks) && Markable(db, id)
    ensures MarksExact(Marked(db, id, at), marks + [id])
  {
    var later := Marked(db, id, at);
    assert id !in marks;
    assert forall g | g in later.grants && g != id :: HasConsumed(later, g) == HasConsumed(db, g);
  }

  /** Nobody holds or has used a grant that is not yet consumed. */
  lemma UnspentIsFree(s: Sys, id: string)
    requires TasksSound(s) && UsesSound(s) && !HasConsumed(s.db, id)
    ensures forall k | k in s.tasks :: Held(s.tasks[k]) != Some(id)
    ensures forall i | 0 <= i < |s.uses| :: s.uses[i].id != id
  {
    forall k | k in s.tasks ensures Held(s.tasks[k]) != Some(id) {
      assert TaskSound(s.db, s.tasks[k]);
    }
    forall i | 0 <= i < |s.uses| ensures s.uses[i].id != id {
      assert UseSound(s.db, s.uses[i]);
    }
  }

  lemma HoldKeepsApart(tasks: map<nat, Task>, uses: seq<Use>, k: nat, t: Task, id: string)
    requires HeldApart(tasks, uses) && k in tasks && Held(t) == Some(id)
    requires forall j | j in tasks :: Held(tasks[j]) != Some(id)
    requires forall i | 0 <= i < |uses| :: uses[i].id != id
    ensures HeldApart(tasks[k := t], uses)
  {
  }

  lemma MarkKeeps(s: Sys, k: nat, p: Purpose, id: string, row: GrantRow, now: int)
    requires Books(s) && k in s.tasks && s.tasks[k] == Mark(p, id, row, now)
    ensures Books(AfterMark(s, k, p, id, row, now))
  {
    if Markable(s.db, id) {
      var later := Marked(s.db, id, now);
      assert TaskSound(s.db, s.tasks[k]);
      MarkedKeeps(s.db, id, now);
      AllSurvive(s, later);
      MarksExtend(s.db, s.marks, id, now);
      UnspentIsFree(s, id);
      HoldKeepsApart(s.tasks, s.uses, k, Holding(p, id, row), id);
      assert TaskSound(later, Holding(p, id, row));
    } else {
      EndKeeps(s, k);
    }
  }

  // ---------- using a grant ----------

  lemma UseKeepsApart(tasks: map<nat, Task>, uses: seq<Use>, k: nat, u: Use)
    requires HeldApart(tasks, uses) && k in tasks && Held(tasks[k]) == Some(u.id)
    ensures HeldApart(tasks - {k}, uses + [u])
  {
  }

  /** A task that uses its grant up leaves the books in order. */
  lemma UseRecorded(s: Sys, k: nat, u: Use, h: Host)
    requires Books(s) && k in s.tasks && Held(s.tasks[k]) == Some(u.id) && UseSound(s.db, u) && AuthSound(s.db, h.m)
    requires h.formed == s.h.formed + if u.Pairing? then [u.pair] else []
    ensures Books(Ended(s.(h := h, uses := s.uses + [u]), k))
  {
    UseKeepsApart(s.tasks, s.uses, k, u);
    FrontOfAppend(s.uses, u);
  }

  /** A grant that is held names a device with the route it was issued for. */
  lemma HeldRowRouted(s: Sys, k: nat, p: Purpose, id: string, row: GrantRow)
    requires Sound(s.db) && TasksSound(s) && k in s.tasks && s.tasks[k] == Holding(p, id, row)
    ensures Routed(s.db, row.userId, row.deviceId, row.relayUsername)
    ensures Known(s.db, id, row) && HasConsumed(s.db, id) && row.grantType == Expected(p) && PurposeSound(s.db, p)
  {
    assert TaskSound(s.db, s.tasks[k]);
  }

  lemma ClearedRowRouted(s: Sys, k: nat, ws: Socket, username: string, id: string, row: GrantRow, session: string)
    requires Sound(s.db) && TasksSound(s) && k in s.tasks && s.tasks[k] == Cleared(ws, username, id, row, session)
    ensures Known(s.db, id, row) && row.grantType == GS.ClientConnect && row.relayUsername == username && HasConsumed(s.db, id)
    ensures Routed(s.db, row.userId, row.deviceId, username)
  {
    assert TaskSound(s.db, s.tasks[k]);
  }

  lemma RegisteredAuthSound(db: Db, m: Maps, ws: Socket, server: ActiveServer, auth: Auth)
    requires AuthSound(db, m) && Routed(db, auth.userId, auth.deviceId, server.username)
    ensures AuthSound(db, Registered(m, ws, server, Some(auth)))
  {
  }

  lemma RegisterKeepsBooks(s: Sys, k: nat, p: Purpose, id: string, row: GrantRow)
    requires Books(s) && k in s.tasks && s.tasks[k] == Holding(p, id, row) && p.ForServer?
    requires GrantFits(row, p.username, p.installId) && Registers(s.h, p.username, p.installId)
    ensures Books(RegisterStep(s, k, p, id, row))
  {
    var auth := Auth(row.userId, row.sessionId, row.deviceId);
    var server := ActiveServer(p.username, p.installId, s.clock, Waiting, p.metadata);
    var h := RegisterEffect(s.h, p.ws, p.username, p.installId, p.metadata, Some(auth), s.clock);
    HeldRowRouted(s, k, p, id, row);
    RegisteredAuthSound(s.db, s.h.m, p.ws, server, auth);
    assert h.m == Registered(s.h.m, p.ws, server, Some(auth));
    UseRecorded(s, k, Registration(p.ws, p.username, id, row, p.installId), h);
  }

  lemma VerifyKeeps(s: Sys, k: nat, p: Purpose, id: string, row: GrantRow)
    requires Books(s) && k in s.tasks && s.tasks[k] == Holding(p, id, row) && p.ForClient?
    ensures Books(VerifyStep(s, k, p, id, row))
  {
    EndKeeps(s, k);
    assert TaskSound(s.db, s.tasks[k]);
    if VerifyStep(s, k, p, id, row) != Ended(s, k) {
      ResumeKeeps(s, k, Cleared(p.ws, p.username, id, row, p.waiting.auth.value.sessionId));
    }
  }

  lemma HoldingKeeps(s: Sys, k: nat, p: Purpose, id: string, row: GrantRow, freshId: string, freshToken: string)
    requires Books(s) && k in s.tasks && s.tasks[k] == Holding(p, id, row)
    ensures Books(Resume(s, k, freshId, freshToken))
  {
    if p.ForClient? {
      VerifyKeeps(s, k, p, id, row);
    } else if GrantFits(row, p.username, p.installId) && Registers(s.h, p.username, p.installId) {
      RegisterKeepsBooks(s, k, p, id, row);
    } else {
      EndKeeps(s, k);
    }
  }

  lemma ConnectedAuthSound(db: Db, m: Maps, ws: Socket, username: string)
    requires AuthSound(db, m) && username in m.waiting
    ensures AuthSound(db, Connected(m, ws, username))
  {
    assert Connected(m, ws, username).activeServers.Keys == m.activeServers.Keys;
  }

  /** The account recorded with a pair is that of the server's own username. */
  lemma PairingSound(s: Sys, k: nat, ws: Socket, username: string, id: string, row: GrantRow, session: string)
    requires Books(s) && k in s.tasks && s.tasks[k] == Cleared(ws, username, id, row, session) && username in s.h.m.waiting
    ensures UseSound(s.db, PairingOf(s.h.m, ws, username, id, row, session))
  {
    ClearedRowRouted(s, k, ws, username, id, row, session);
    var server := s.h.m.waiting[username];
    assert server in s.h.m.serverAuth.Keys <==> server in s.h.m.activeServers.Keys;
  }

  lemma PairKeepsBooks(s: Sys, k: nat, ws: Socket, username: string, id: string, row: GrantRow, session: string)
    requires Books(s) && k in s.tasks && s.tasks[k] == Cleared(ws, username, id, row, session)
    ensures Books(PairStep(s, k, ws, username, id, row, session))
  {
    if Connects(s.h, username) {
      var h := ConnectEffect(s.h, ws, username, s.clock);
      PairingSound(s, k, ws, username, id, row, session);
      ConnectedAuthSound(s.db, s.h.m, ws, username);
      assert h.m == Connected(s.h.m, ws, username);
      UseRecorded(s, k, PairingOf(s.h.m, ws, username, id, row, session), h);
    } else {
      EndKeeps(s, k);
    }
  }

  // ---------- issuing a grant ----------

  lemma IssueKeeps(s: Sys, k: nat, freshId: string, row: GrantRow)
    requires Books(s) && k in s.tasks && row.consumedAt == None
    requires Routed(s.db, row.userId, row.deviceId, row.relayUsername)
    ensures Books(Ended(s.(db := GrantInserted(s.db, freshId, row)), k))
  {
    GrantInsertedKeeps(s.db, freshId, row);
    TablesGrow(s, GrantInserted(s.db, freshId, row));
    EndKeeps(s.(db := GrantInserted(s.db, freshId, row)), k);
  }

  lemma IssueTaskKeeps(s: Sys, k: nat, freshId: string, freshToken: string)
    requires Books(s) && k in s.tasks && s.tasks[k].Issue?
    ensures Books(Resume(s, k, freshId, freshToken))
  {
    assert TaskSound(s.db, s.tasks[k]);
    IssueKeeps(s, k, freshId, IssuedRow(s.tasks[k], freshToken, s.clock));
  }

  // ---------- every step ----------

  lemma ResumeStepKeeps(s: Sys, k: nat, freshId: string, freshToken: string)
    requires Books(s) && k in s.tasks
    ensures Books(Resume(s, k, freshId, freshToken))
  {
    match s.tasks[k]
    case Lookup(p, token, now) => LookupKeeps(s, k, p, token, now);
    case CheckSession(_, _, _, _) => CheckSessionKeeps(s, k, freshId, freshToken);
    case Mark(p, id, row, now) => MarkKeeps(s, k, p, id, row, now);
    case Holding(p, id, row) => HoldingKeeps(s, k, p, id, row, freshId, freshToken);
    case Cleared(ws, username, id, row, session) => PairKeepsBooks(s, k, ws, username, id, row, session);
    case Issue(_, _, _, _, _, _) => IssueTaskKeeps(s, k, freshId, freshToken);
  }

  lemma TableStepKeeps(s: Sys, later: Db)
    requires Books(s) && Sound(later) && Grows(s.db, later) && later.grants == s.db.grants
    ensures Books(s.(db := later))
  {
    TablesGrow(s, later);
  }

  lemma SessionsKeepBooks(s: Sys, sessions: map<string, SessionRow>)
    requires Books(s)
    ensures Books(s.(db := s.db.(sessions := sessions)))
  {
    SessionsDoNotMatter(s.db, sessions);
    TableStepKeeps(s, s.db.(sessions := sessions));
  }

  lemma SessionStatementKeeps(s: Sys, e: Event)
    requires Books(s) && (e.Login? || e.Revoke?)
    ensures Books(Step(s, e))
  {
    SessionsKeepBooks(s, Step(s, e).db.sessions);
  }

  lemma NewDeviceKeeps(s: Sys, id: string, device: DeviceRow)
    requires Books(s)
    ensures Books(Step(s, NewDevice(id, device)))
  {
    DeviceInsertedKeeps(s.db, id, device);
    TableStepKeeps(s, Step(s, NewDevice(id, device)).db);
  }

  lemma HeartbeatKeeps(s: Sys, id: string, name: string, deviceType: string)
    requires Books(s)
    ensures Books(Step(s, Heartbeat(id, name, deviceType)))
  {
    DeviceUpdatedKeeps(s.db, id, name, deviceType, s.clock);
    TableStepKeeps(s, Step(s, Heartbeat(id, name, deviceType)).db);
  }

  lemma ElapseKeeps(s: Sys, ms: nat)
    requires Books(s)
    ensures Books(Step(s, Elapse(ms)))
  {
  }

  lemma AskKeeps(s: Sys, e: Event)
    requires Books(s) && (e.AskServerGrant? || e.AskClientGrant?)
    ensures Books(Step(s, e))
  {
    if Step(s, e) != s {
      match e
      case AskServerGrant(userId, sessionId, d, relayUsername, installId) =>
        SpawnKeeps(s, Issue(GS.ServerRegister, userId, sessionId, d, relayUsername, Some(installId)));
      case AskClientGrant(userId, sessionId, d) =>
        SpawnKeeps(s, Issue(GS.ClientConnect, userId, sessionId, d, s.db.devices[d].relayUsername, None));
    }
  }

  lemma StepKeepsBooks(s: Sys, e: Event)
    requires Books(s)
    ensures Books(Step(s, e))
  {
    match e
    case Received(ws, frame) => ReceiveKeeps(s, ws, frame);
    case Gone(ws) => CloseKeepsBooks(s, ws);
    case Advance(k, freshId, freshToken) =>
      if k in s.tasks { ResumeStepKeeps(s, k, freshId, freshToken); }
    case AskServerGrant(_, _, _, _, _) => AskKeeps(s, e);
    case AskClientGrant(_, _, _) => AskKeeps(s, e);
    case Elapse(ms) => ElapseKeeps(s, ms);
    case NewDevice(id, device) => NewDeviceKeeps(s, id, device);
    case Heartbeat(id, name, deviceType) => HeartbeatKeeps(s, id, name, deviceType);
    case _ => SessionStatementKeeps(s, e);
  }

  /** On every run, with no assumption on what the sockets send. */
  lemma {:induction false} RunBooks(start: Sys, events: seq<Event>)
    requires IsStart(start)
    ensures Books(Run(start, events))
  {
    if events != [] {
      RunBooks(start, events[..|events| - 1]);
      StepKeepsBooks(Run(start, events[..|events| - 1]), events[|events| - 1]);
    }
  }

  // ---------- accounts ----------

  /** The server's account is the client's. */
  predicate SameAccount(auth: Option<Auth>, row: GrantRow) {
    auth.Some? && auth.value.userId == row.userId && auth.value.deviceId == row.deviceId
  }

  /** Two routed accounts are the same exactly when their usernames are. */
  lemma AccountIsUsername(db: Db, auth: Auth, row: GrantRow, username: string, own: string)
    requires Sound(db) && Routed(db, auth.userId, auth.deviceId, own) && Routed(db, row.userId, row.deviceId, username)
    ensures SameAccount(Some(auth), row) <==> own == username
  {
    if own == username {
      RouteDeterminesAccount(db, auth.userId, auth.deviceId, row.userId, row.deviceId, username);
    }
  }

  /** The server waiting under the username is registered under this very username. */
  predicate WaitsUnderOwnName(m: Maps, username: string) {
    username in m.waiting && m.waiting[username] in m.activeServers && m.activeServers[m.waiting[username]].username == username
  }

  /**
   * Exactly when a client that has been cleared is paired with its own account, in every state that
   * can be reached: when the server that waits by then is registered under the username it waits under.
   */
  lemma PairedAccountMatchesIff(s: Sys, k: nat)
    requires Books(s) && k in s.tasks && s.tasks[k].Cleared? && Connects(s.h, s.tasks[k].username)
    ensures var t := s.tasks[k];
            SameAccount(Get(s.h.m.serverAuth, s.h.m.waiting[t.username]), t.row) <==> WaitsUnderOwnName(s.h.m, t.username)
  {
    var Cleared(ws, username, id, row, session) := s.tasks[k];
    var server := s.h.m.waiting[username];
    ClearedRowRouted(s, k, ws, username, id, row, session);
    if server in s.h.m.activeServers {
      assert server in s.h.m.serverAuth.Keys;
      AccountIsUsername(s.db, s.h.m.serverAuth[server], row, username, s.h.m.activeServers[server].username);
    } else {
      assert server !in s.h.m.serverAuth.Keys;
    }
  }
}
