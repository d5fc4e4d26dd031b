/**
 * Runs of the relay with grants on which a promise fails: a client paired with another device, a server
 * registered and a client paired after their sockets have closed.
 */
module GrantScenarios {
  import opened Options
  import opened Text
  import opened RelayMaps
  import opened Registry
  import opened Connections
  import opened Handler
  import opened GrantRelay
  import opened GrantBooks
  import opened GrantMaps
  import opened GrantResults
  import opened GS = GrantStore

  // ---------- running in blocks ----------

  lemma RunSnoc(s: Sys, events: seq<Event>, e: Event)
    ensures Run(s, events + [e]) == Step(Run(s, events), e)
  {
    assert (events + [e])[..|events + [e]| - 1] == events;
  }

  lemma {:induction false} RunConcat(s: Sys, a: seq<Event>, b: seq<Event>)
    ensures Run(s, a + b) == Run(Run(s, a), b)
  {
    if b == [] {
      assert a + b == a;
    } else {
      RunConcat(s, a, b[..|b| - 1]);
      assert (a + b)[..|a + b| - 1] == a + b[..|b| - 1];
    }
  }

  /** The suspended handler `k` goes on, `n` times. */
  function Resumes(k: nat, n: nat): seq<Event> {
    if n == 0 then [] else Resumes(k, n - 1) + [Advance(k, "", "")]
  }

  // ---------- consuming a grant without interference ----------

  predicate Consumable(s: Sys, token: string, grantType: GrantType, id: string) {
    && id in s.db.grants && TokensUnique(s.db.grants)
    && var row := s.db.grants[id];
       && row.token == token && row.grantType == grantType && row.revokedAt == None && row.consumedAt == None
       && row.expiresAt > s.clock && SessionActive(s.db, row.sessionId, s.clock)
  }

  lemma TokenFinds(db: Db, token: string, id: string)
    requires id in db.grants && TokensUnique(db.grants) && db.grants[id].token == token
    ensures GrantByToken(db, token) == Some(id)
  {
    assert GrantByToken(db, token).Some?;
  }

  function Consumed(s: Sys, k: nat, p: Purpose, id: string): Sys
    requires id in s.db.grants
  {
    s.(db := Marked(s.db, id, s.clock), marks := s.marks + [id], tasks := s.tasks[k := Holding(p, id, s.db.grants[id])])
  }

  lemma FirstTwoResumes(s: Sys, k: nat, p: Purpose, token: string, id: string)
    requires k in s.tasks && s.tasks[k] == Lookup(p, token, s.clock) && Consumable(s, token, Expected(p), id)
    ensures Run(s, Resumes(k, 2)) == s.(tasks := s.tasks[k := Mark(p, id, s.db.grants[id], s.clock)])
  {
    var row := s.db.grants[id];
    TokenFinds(s.db, token, id);
    var s1 := s.(tasks := s.tasks[k := CheckSession(p, id, row, s.clock)]);
    RunSnoc(s, Resumes(k, 0), Advance(k, "", ""));
    assert Step(s, Advance(k, "", "")) == s1;
    RunSnoc(s, Resumes(k, 1), Advance(k, "", ""));
    assert s1.tasks[k := Mark(p, id, row, s.clock)] == s.tasks[k := Mark(p, id, row, s.clock)];
  }

  lemma ConsumeRuns(s: Sys, k: nat, p: Purpose, token: string, id: string)
    requires k in s.tasks && s.tasks[k] == Lookup(p, token, s.clock) && Consumable(s, token, Expected(p), id)
    ensures Run(s, Resumes(k, 3)) == Consumed(s, k, p, id)
  {
    FirstTwoResumes(s, k, p, token, id);
    var s2 := s.(tasks := s.tasks[k := Mark(p, id, s.db.grants[id], s.clock)]);
    RunSnoc(s, Resumes(k, 2), Advance(k, "", ""));
    assert Step(s2, Advance(k, "", "")).tasks == Consumed(s, k, p, id).tasks;
  }

  // ---------- a registration ----------

  const NO_METADATA := Metadata(None, None, None, None)

  function RegisterFrame(username: string, installId: string, token: string): Frame {
    Frame([], false, Message.ServerRegister(username, installId, NO_METADATA, Some(token)))
  }

  function ConnectFrame(username: string, token: string): Frame {
    Frame([], false, Message.ClientConnect(username, Some(token)))
  }

  /** A registration that is going to succeed. */
  predicate CanRegister(s: Sys, ws: Socket, username: string, installId: string, token: string, id: string) {
    && ws !in s.h.closed && !ConnOf(s.h, ws).paired && s.next !in s.tasks
    && TokenOf(Some(token)) == token && token != ""
    && Consumable(s, token, GS.ServerRegister, id) && GrantFits(s.db.grants[id], username, installId)
    && Registers(s.h, username, installId)
  }

  function RegisterEvents(k: nat, ws: Socket, username: string, installId: string, token: string): seq<Event> {
    [Received(ws, RegisterFrame(username, installId, token))] + Resumes(k, 4)
  }

  function RegisterDone(s: Sys, ws: Socket, username: string, installId: string, id: string): Sys
    requires id in s.db.grants
  {
    var row := s.db.grants[id];
    var h := RegisterEffect(WithConn(s.h, ws, ConnOf(s.h, ws)), ws, username, installId, NO_METADATA,
                            Some(Auth(row.userId, row.sessionId, row.deviceId)), s.clock);
    Sys(h, Marked(s.db, id, s.clock), s.clock, s.tasks, s.next + 1, s.uses + [Registration(ws, username, id, row, installId)], s.marks + [id])
  }

  lemma RegistrationEnds(s: Sys, k: nat, p: Purpose, id: string)
    requires k in s.tasks && id in s.db.grants && s.tasks[k] == Holding(p, id, s.db.grants[id].(consumedAt := None))
    requires p.ForServer? && GrantFits(s.db.grants[id], p.username, p.installId) && Registers(s.h, p.username, p.installId)
    ensures var row := s.db.grants[id].(consumedAt := None);
            Step(s, Advance(k, "", ""))
            == s.(h := RegisterEffect(s.h, p.ws, p.username, p.installId, p.metadata,
                                      Some(Auth(row.userId, row.sessionId, row.deviceId)), s.clock),
                  uses := s.uses + [Registration(p.ws, p.username, id, row, p.installId)], tasks := s.tasks - {k})
  {
  }

  /** From the lookup of its grant to the registration. */
  lemma RegistrationGoesThrough(s: Sys, k: nat, p: Purpose, token: string, id: string)
    requires k in s.tasks && s.tasks[k] == Lookup(p, token, s.clock) && Consumable(s, token, GS.ServerRegister, id)
    requires p.ForServer? && GrantFits(s.db.grants[id], p.username, p.installId) && Registers(s.h, p.username, p.installId)
    ensures var row := s.db.grants[id];
            Run(s, Resumes(k, 4))
            == Sys(RegisterEffect(s.h, p.ws, p.username, p.installId, p.metadata,
                                  Some(Auth(row.userId, row.sessionId, row.deviceId)), s.clock),
                   Marked(s.db, id, s.clock), s.clock, s.tasks - {k}, s.next,
                   s.uses + [Registration(p.ws, p.username, id, row, p.installId)], s.marks + [id])
  {
    ConsumeRuns(s, k, p, token, id);
    RunSnoc(s, Resumes(k, 3), Advance(k, "", ""));
    RegistrationEnds(Consumed(s, k, p, id), k, p, id);
    assert s.tasks[k := Holding(p, id, s.db.grants[id])] - {k} == s.tasks - {k};
  }

  function Asked(s: Sys, ws: Socket, p: Purpose, token: string): Sys {
    Spawned(s.(h := WithConn(s.h, ws, ConnOf(s.h, ws))), Lookup(p, token, s.clock))
  }

  lemma RunOne(s: Sys, e: Event)
    ensures Run(s, [e]) == Step(s, e)
  {
    RunSnoc(s, [], e);
    assert [] + [e] == [e];
  }

  lemma RegisterAsked(s: Sys, ws: Socket, username: string, installId: string, token: string, id: string)
    requires CanRegister(s, ws, username, installId, token, id)
    ensures Run(s, [Received(ws, RegisterFrame(username, installId, token))])
            == Asked(s, ws, ForServer(ws, username, installId, NO_METADATA), token)
  {
    RunOne(s, Received(ws, RegisterFrame(username, installId, token)));
  }

  lemma RegisterRuns(s: Sys, ws: Socket, username: string, installId: string, token: string, id: string)
    requires CanRegister(s, ws, username, installId, token, id)
    ensures Run(s, RegisterEvents(s.next, ws, username, installId, token)) == RegisterDone(s, ws, username, installId, id)
  {
    var p := ForServer(ws, username, installId, NO_METADATA);
    var s1 := Asked(s, ws, p, token);
    RegisterAsked(s, ws, username, installId, token, id);
    RunConcat(s, [Received(ws, RegisterFrame(username, installId, token))], Resumes(s.next, 4));
    RegistrationGoesThrough(s1, s.next, p, token, id);
    assert s1.tasks - {s.next} == s.tasks;
  }

  // ---------- a client up to the point where only the pairing is left ----------

  predicate CanConnect(s: Sys, ws: Socket, username: string, token: string, id: string) {
    && ws !in s.h.closed && !ConnOf(s.h, ws).paired && s.next !in s.tasks
    && TokenOf(Some(token)) == token && token != ""
    && Consumable(s, token, GS.ClientConnect, id) && s.db.grants[id].relayUsername == username
    && Connects(s.h, username) && WaitingInfoOf(s.h.m, username).Some?
    && var auth := WaitingInfoOf(s.h.m, username).value.auth;
       SameAccount(auth, s.db.grants[id]) && SessionActive(s.db, auth.value.sessionId, s.clock)
  }

  function ConnectEvents(k: nat, ws: Socket, username: string, token: string): seq<Event> {
    [Received(ws, ConnectFrame(username, token))] + Resumes(k, 4)
  }

  /** The session of the server that waits under the username. */
  function SessionWaiting(s: Sys, username: string): string {
    var server := WaitingInfoOf(s.h.m, username);
    if server.Some? && server.value.auth.Some? then server.value.auth.value.sessionId else ""
  }

  function ConnectCleared(s: Sys, ws: Socket, username: string, id: string): Sys
    requires id in s.db.grants
  {
    Sys(WithConn(s.h, ws, ConnOf(s.h, ws)), Marked(s.db, id, s.clock), s.clock,
        s.tasks[s.next := Cleared(ws, username, id, s.db.grants[id], SessionWaiting(s, username))], s.next + 1, s.uses, s.marks + [id])
  }

  lemma ConnectAsked(s: Sys, ws: Socket, username: string, token: string, id: string)
    requires CanConnect(s, ws, username, token, id)
    ensures Run(s, [Received(ws, ConnectFrame(username, token))])
            == Asked(s, ws, ForClient(ws, username, WaitingInfoOf(s.h.m, username).value), token)
  {
    RunOne(s, Received(ws, ConnectFrame(username, token)));
  }

  lemma VerificationPasses(s: Sys, k: nat, p: Purpose, id: string, row: GrantRow)
    requires k in s.tasks && s.tasks[k] == Holding(p, id, row) && p.ForClient? && row.relayUsername == p.username
    requires SameAccount(p.waiting.auth, row) && SessionActive(s.db, p.waiting.auth.value.sessionId, s.clock)
    ensures Step(s, Advance(k, "", "")) == s.(tasks := s.tasks[k := Cleared(p.ws, p.username, id, row, p.waiting.auth.value.sessionId)])
  {
  }

  lemma ClearingGoesThrough(s: Sys, k: nat, p: Purpose, token: string, id: string)
    requires k in s.tasks && s.tasks[k] == Lookup(p, token, s.clock) && Consumable(s, token, GS.ClientConnect, id)
    requires p.ForClient? && s.db.grants[id].relayUsername == p.username
    requires SameAccount(p.waiting.auth, s.db.grants[id]) && SessionActive(s.db, p.waiting.auth.value.sessionId, s.clock)
    ensures Run(s, Resumes(k, 4))
            == s.(db := Marked(s.db, id, s.clock), marks := s.marks + [id],
                  tasks := s.tasks[k := Cleared(p.ws, p.username, id, s.db.grants[id], p.waiting.auth.value.sessionId)])
  {
    ConsumeRuns(s, k, p, token, id);
    RunSnoc(s, Resumes(k, 3), Advance(k, "", ""));
    VerificationPasses(Consumed(s, k, p, id), k, p, id, s.db.grants[id]);
    OverwriteTask(s.tasks, k, Holding(p, id, s.db.grants[id]), Cleared(p.ws, p.username, id, s.db.grants[id], p.waiting.auth.value.sessionId));
  }

  lemma OverwriteTask(tasks: map<nat, Task>, k: nat, t: Task, u: Task)
    ensures tasks[k := t][k := u] == tasks[k := u]
  {
  }

  lemma ConnectRuns(s: Sys, ws: Socket, username: string, token: string, id: string)
    requires CanConnect(s, ws, username, token, id)
    ensures Run(s, ConnectEvents(s.next, ws, username, token)) == ConnectCleared(s, ws, username, id)
  {
    var p := ForClient(ws, username, WaitingInfoOf(s.h.m, username).value);
    var s1 := Asked(s, ws, p, token);
    ConnectAsked(s, ws, username, token, id);
    RunConcat(s, [Received(ws, ConnectFrame(username, token))], Resumes(s.next, 4));
    ClearingGoesThrough(s1, s.next, p, token, id);
    OverwriteTask(s.tasks, s.next, Lookup(p, token, s.clock), Cleared(ws, username, id, s.db.grants[id], SessionWaiting(s, username)));
  }

  // ---------- a concrete relay ----------

  const ALICE := DeviceRow("user", "install", "desk", "desktop", "alice", 0, 0, 0)

  const BOB := DeviceRow("user", "other", "lap", "desktop", "bob", 0, 0, 0)

  function ServerGrant(token: string, deviceId: string, device: DeviceRow): GrantRow {
    GrantRow(GS.ServerRegister, token, device.userId, "session", deviceId, device.relayUsername, Some(device.installId), 0, 60_000, None, None)
  }

  function ClientGrant(token: string, deviceId: string, device: DeviceRow): GrantRow {
    GrantRow(GS.ClientConnect, token, device.userId, "session", deviceId, device.relayUsername, None, 0, 60_000, None, None)
  }

  /** Two devices of one user, a server grant for each and a client grant for the first. */
  const TABLES := Db(map["g1" := ServerGrant("t1", "d1", ALICE), "g2" := ServerGrant("t2", "d2", BOB), "g3" := ClientGrant("t3", "d1", ALICE)],
                     map["session" := SessionRow("user", 1_000_000, None)],
                     map["d1" := ALICE, "d2" := BOB])

  const DESK := Sys(Started(map[]), TABLES, 0, map[], 0, [], [])

  lemma DeskIsStart()
    ensures IsStart(DESK)
  {
    assert RoutesUnique(TABLES.devices) && InstallsUnique(TABLES.devices);
    assert TokensUnique(TABLES.grants);
    assert GrantsSound(TABLES);
  }

  lemma NamesAreValid()
    ensures IsValidRelayUsername("alice") && IsValidRelayUsername("bob")
  {
  }

  lemma TokensAreTrimmed(c: char)
    requires c == '1' || c == '2' || c == '3'
    ensures TokenOf(Some(['t', c])) == ['t', c]
  {
    var s := ['t', c];
    assert TrimStart(s) == s;
    assert TrimEnd(s) == s;
  }

  /** The first device registers on socket 1. */
  const ALICE_UP := RegisterEvents(0, 1, "alice", "install", "t1")

  /** Its client, on socket 2, is checked and cleared. */
  const CLIENT_CLEARED := ConnectEvents(1, 2, "alice", "t3")

  /** The second device's username is registered on socket 1, too. */
  const BOB_UP := RegisterEvents(2, 1, "bob", "other", "t2")

  const PAIRING := Advance(1, "", "")

  function AfterAlice(): Sys {
    RegisterDone(DESK, 1, "alice", "install", "g1")
  }

  function AfterClient(): Sys {
    ConnectCleared(AfterAlice(), 2, "alice", "g3")
  }

  lemma AliceRuns()
    ensures Run(DESK, ALICE_UP) == AfterAlice()
  {
    DeskIsStart();
    NamesAreValid();
    TokensAreTrimmed('1');
    assert "t1" == ['t', '1'];
    RegisterRuns(DESK, 1, "alice", "install", "t1", "g1");
  }

  lemma AliceWaits()
    ensures var s := AfterAlice();
            && s.h.m.waiting == map["alice" := 1] && s.h.m.activeServers.Keys == {1}
            && s.h.m.activeServers[1].username == "alice" && s.h.m.serverAuth == map[1 := Auth("user", "session", "d1")]
            && s.h.m.pairLookup == map[] && s.h.rows.Keys == {"alice"}
            && s.h.conns == map[1 := Conn(Some("alice"), true, false)] && s.h.closed == {}
            && s.tasks == map[] && s.next == 1 && s.clock == 0 && s.db == Marked(TABLES, "g1", 0)
            && s.uses == [Registration(1, "alice", "g1", TABLES.grants["g1"], "install")]
  {
    NamesAreValid();
  }

  lemma MarkedRest(db: Db, id: string, at: int)
    requires id in db.grants && TokensUnique(db.grants)
    ensures var n := Marked(db, id, at);
            && n.grants.Keys == db.grants.Keys && n.sessions == db.sessions && n.devices == db.devices
            && (forall g | g in db.grants && g != id :: n.grants[g] == db.grants[g]) && TokensUnique(n.grants)
  {
  }

  lemma ClientRuns()
    ensures Run(AfterAlice(), CLIENT_CLEARED) == AfterClient()
  {
    DeskIsStart();
    AliceWaits();
    TokensAreTrimmed('3');
    MarkedRest(TABLES, "g1", 0);
    ConnectRuns(AfterAlice(), 2, "alice", "t3", "g3");
  }

  /** What the second registration meets. */
  ghost predicate ClientSuspended(s: Sys) {
    && s.tasks == map[1 := Cleared(2, "alice", "g3", TABLES.grants["g3"], "session")] && s.next == 2 && s.clock == 0
    && s.h.m.waiting == map["alice" := 1] && Get(s.h.m.activeServers, 1).Some? && s.h.rows.Keys == {"alice"} && s.h.closed == {}
    && ConnOf(s.h, 1) == Conn(Some("alice"), true, false)
    && s.db == Marked(Marked(TABLES, "g1", 0), "g3", 0)
  }

  lemma ClientIsSuspended()
    ensures ClientSuspended(AfterClient())
  {
    AliceWaits();
    DeskIsStart();
    MarkedRest(TABLES, "g1", 0);
  }

  lemma SecondGrantLeft()
    ensures var db := Marked(Marked(TABLES, "g1", 0), "g3", 0);
            && TokensUnique(db.grants) && Get(db.grants, "g2") == Some(TABLES.grants["g2"]) && db.sessions == TABLES.sessions
  {
    DeskIsStart();
    MarkedRest(TABLES, "g1", 0);
    MarkedRest(Marked(TABLES, "g1", 0), "g3", 0);
  }

  lemma BobCanRegister(s: Sys)
    requires ClientSuspended(s)
    ensures CanRegister(s, 1, "bob", "other", "t2", "g2")
  {
    NamesAreValid();
    TokensAreTrimmed('2');
    SecondGrantLeft();
  }

  /** One socket waits under both names, with the account of the second. */
  ghost predicate BothNamesWait(s: Sys) {
    && s.tasks == map[1 := Cleared(2, "alice", "g3", TABLES.grants["g3"], "session")]
    && Connects(s.h, "alice") && s.h.m.waiting["alice"] == 1 && Get(s.h.m.waiting, "bob") == Some(1)
    && Get(s.h.m.serverAuth, 1) == Some(Auth("user", "session", "d2"))
  }

  lemma BobTakesOver(s: Sys)
    requires ClientSuspended(s)
    ensures Run(s, BOB_UP) == RegisterDone(s, 1, "bob", "other", "g2") && BothNamesWait(RegisterDone(s, 1, "bob", "other", "g2"))
  {
    BobCanRegister(s);
    RegisterRuns(s, 1, "bob", "other", "t2", "g2");
    SecondGrantLeft();
    BobDone(s);
  }

  lemma BobDone(s: Sys)
    requires ClientSuspended(s) && Get(s.db.grants, "g2") == Some(TABLES.grants["g2"])
    ensures BothNamesWait(RegisterDone(s, 1, "bob", "other", "g2"))
  {
    NamesAreValid();
    assert Registers(s.h, "bob", "other");
  }

  lemma WrongPairing(s: Sys)
    requires BothNamesWait(s)
    ensures WrongDevice(Step(s, PAIRING))
  {
    PairingResumed(s, 1);
  }

  /** The last pair joins a client of device `d1` to a server of device `d2`. */
  ghost predicate WrongDevice(s: Sys) {
    && s.uses != []
    && var u := s.uses[|s.uses| - 1];
       && u.Pairing? && u.pair == Pair(1, 2) && u.row.deviceId == "d1" && u.serverAuth == Some(Auth("user", "session", "d2"))
  }

  lemma RunFour(s: Sys, a: seq<Event>, b: seq<Event>, c: seq<Event>, e: Event)
    ensures Run(s, a + b + c + [e]) == Step(Run(Run(Run(s, a), b), c), e)
  {
    RunConcat(s, a, b);
    RunConcat(s, a + b, c);
    RunSnoc(s, a + b + c, e);
  }

  /**
   * A run on which a client is paired with the wrong device: the server it was checked against registers
   * a second username, of another device, while the client is suspended.
   */
  lemma WrongDeviceIsPaired()
    ensures IsStart(DESK) && WrongDevice(Run(DESK, ALICE_UP + CLIENT_CLEARED + BOB_UP + [PAIRING]))
  {
    DeskIsStart();
    AliceRuns();
    ClientRuns();
    ClientIsSuspended();
    BobTakesOver(AfterClient());
    WrongPairing(RegisterDone(AfterClient(), 1, "bob", "other", "g2"));
    RunFour(DESK, ALICE_UP, CLIENT_CLEARED, BOB_UP, PAIRING);
  }

  // ---------- closed sockets ----------

  lemma PairingAfterClose(s: Sys, k: nat)
    requires k in s.tasks && s.tasks[k].Cleared? && Connects(s.h, s.tasks[k].username)
    ensures var t, n := s.tasks[k], Step(s, Advance(k, "", ""));
            && Tracks(n.h.m, t.ws) && n.h.closed == s.h.closed && Pair(s.h.m.waiting[t.username], t.ws) in n.h.m.pairs
            && n.uses == s.uses + [PairingOf(s.h.m, t.ws, t.username, t.id, t.row, t.serverSession)]
  {
    PairingResumed(s, k);
  }

  /** The client is tracked, and paired with an open server, although it has closed. */
  ghost predicate DeadClientPaired(s: Sys) {
    Tracks(s.h.m, 2) && 2 in s.h.closed && Pair(1, 2) in s.h.m.pairs && 1 !in s.h.closed
  }

  /** What the pairing meets once the client has closed. */
  ghost predicate ClientGone(s: Sys) {
    && s.tasks == map[1 := Cleared(2, "alice", "g3", TABLES.grants["g3"], "session")] && s.h.closed == {2}
    && Connects(s.h, "alice") && s.h.m.waiting["alice"] == 1
    && s.uses == [Registration(1, "alice", "g1", TABLES.grants["g1"], "install")]
  }

  lemma ClientGoes(s: Sys)
    requires ClientSuspended(s) && s.uses == [Registration(1, "alice", "g1", TABLES.grants["g1"], "install")]
    requires s.h.m.pairLookup == map[] && ConnOf(s.h, 2).username == None
    ensures ClientGone(Step(s, Gone(2)))
  {
  }

  lemma ClientIsFresh()
    ensures var s := AfterClient();
            && s.uses == [Registration(1, "alice", "g1", TABLES.grants["g1"], "install")]
            && s.h.m.pairLookup == map[] && ConnOf(s.h, 2).username == None
  {
    AliceWaits();
  }

  lemma DeadPairing(s: Sys)
    requires ClientGone(s)
    ensures DeadClientPaired(Step(s, PAIRING)) && OneUseEach(Step(s, PAIRING).uses)
  {
    PairingAfterClose(s, 1);
  }

  /**
   * A run with one control message from each socket on which a client closes while it is suspended and
   * is paired all the same: its live server is left with a dead client, whose close event is past.
   */
  lemma ClosedClientIsPaired()
    ensures IsStart(DESK)
    ensures var events := ALICE_UP + CLIENT_CLEARED + [Gone(2)] + [PAIRING];
            OneUseEach(Run(DESK, events).uses) && AllFree(DESK, events) && DeadClientPaired(Run(DESK, events))
  {
    var events := ALICE_UP + CLIENT_CLEARED + [Gone(2)] + [PAIRING];
    DeskIsStart();
    AliceRuns();
    ClientRuns();
    ClientIsSuspended();
    ClientIsFresh();
    ClientGoes(AfterClient());
    DeadPairing(Step(AfterClient(), Gone(2)));
    RunFour(DESK, ALICE_UP, CLIENT_CLEARED, [Gone(2)], PAIRING);
    RunOne(AfterClient(), Gone(2));
    OneUseEachIsFree(DESK, events);
  }

  /** The state once the registering socket has asked and then closed. */
  ghost function AskedAndGone(): Sys {
    Step(Asked(DESK, 1, ForServer(1, "alice", "install", NO_METADATA), "t1"), Gone(1))
  }

  lemma AliceAskedAndGone()
    ensures Run(DESK, [Received(1, RegisterFrame("alice", "install", "t1"))] + [Gone(1)]) == AskedAndGone()
    ensures var s := AskedAndGone();
            && s.h.closed == {1} && s.h.rows == map[] && s.h.m == EMPTY && s.db == TABLES && s.clock == 0 && s.uses == []
            && 0 in s.tasks && s.tasks[0] == Lookup(ForServer(1, "alice", "install", NO_METADATA), "t1", 0)
  {
    DeskIsStart();
    NamesAreValid();
    TokensAreTrimmed('1');
    RegisterAsked(DESK, 1, "alice", "install", "t1", "g1");
    RunSnoc(DESK, [Received(1, RegisterFrame("alice", "install", "t1"))], Gone(1));
  }

  /**
   * A run with one control message on which a server closes while it is suspended and is registered all
   * the same: it waits under its username although its close event is past.
   */
  lemma ClosedServerIsRegistered()
    ensures IsStart(DESK)
    ensures var events := [Received(1, RegisterFrame("alice", "install", "t1"))] + [Gone(1)] + Resumes(0, 4);
            var s := Run(DESK, events);
            && OneUseEach(s.uses) && AllFree(DESK, events)
            && "alice" in s.h.m.waiting && s.h.m.waiting["alice"] == 1 && Tracks(s.h.m, 1) && 1 in s.h.closed
  {
    var p := ForServer(1, "alice", "install", NO_METADATA);
    DeskIsStart();
    NamesAreValid();
    AliceAskedAndGone();
    RunConcat(DESK, [Received(1, RegisterFrame("alice", "install", "t1"))] + [Gone(1)], Resumes(0, 4));
    RegistrationGoesThrough(AskedAndGone(), 0, p, "t1", "g1");
    var s := Run(AskedAndGone(), Resumes(0, 4));
    assert s.h.m.waiting == map["alice" := 1];
    assert s.h.m.waiting["alice"] in s.h.m.waiting.Values;
    OneUseEachIsFree(DESK, [Received(1, RegisterFrame("alice", "install", "t1"))] + [Gone(1)] + Resumes(0, 4));
  }
}
