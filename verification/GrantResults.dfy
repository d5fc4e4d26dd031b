/** What holds on every run of the relay with grants, however its tasks interleave. */
module GrantResults {
  import opened Options
  import opened RelayMaps
  import opened Registry
  import opened Connections
  import opened Handler
  import opened GrantRelay
  import opened GrantBooks
  import opened GrantMaps
  import GS = GrantStore

  // ---------- grants ----------

  /**
   * On every run each grant is consumed successfully at most once and before its expiry, precisely the
   * marked ones are consumed, every registration and pair has a consumed, unrevoked grant of the right type
   * for its own username, a registration for its own installation, too, and no two of them share one.
   */
  lemma EachGrantServesOnce(start: Sys, events: seq<Event>)
    requires IsStart(start)
    ensures var s := Run(start, events);
            && (forall i, j | 0 <= i < j < |s.marks| :: s.marks[i] != s.marks[j])
            && (forall g | g in s.db.grants :: HasConsumed(s.db, g) <==> g in s.marks)
            && (forall g | g in s.db.grants && HasConsumed(s.db, g) :: s.db.grants[g].consumedAt.value < s.db.grants[g].expiresAt)
            && (forall u | u in s.uses ::
                  && u.id in s.marks && u.id in s.db.grants && s.db.grants[u.id].relayUsername == u.username
                  && s.db.grants[u.id].revokedAt == None
                  && (u.Registration? ==> s.db.grants[u.id].grantType == GS.ServerRegister
                                          && s.db.grants[u.id].installId in {None, Some(""), Some(u.installId)})
                  && (u.Pairing? ==> s.db.grants[u.id].grantType == GS.ClientConnect))
            && (forall i, j | 0 <= i < j < |s.uses| :: s.uses[i].id != s.uses[j].id)
  {
    RunBooks(start, events);
    var s := Run(start, events);
    forall u | u in s.uses
      ensures u.id in s.marks && u.id in s.db.grants && s.db.grants[u.id].relayUsername == u.username
      ensures s.db.grants[u.id].revokedAt == None
      ensures u.Registration? ==> s.db.grants[u.id].grantType == GS.ServerRegister
                                  && s.db.grants[u.id].installId in {None, Some(""), Some(u.installId)}
      ensures u.Pairing? ==> s.db.grants[u.id].grantType == GS.ClientConnect
    {
      assert UseSound(s.db, u);
    }
  }

  lemma OnlyMarksAndIssuesWrite(s: Sys, k: nat, freshId: string, freshToken: string)
    requires k in s.tasks && !s.tasks[k].Mark? && !s.tasks[k].Issue?
    ensures Resume(s, k, freshId, freshToken).db == s.db
  {
  }

  lemma ResumeGrows(s: Sys, k: nat, freshId: string, freshToken: string)
    requires k in s.tasks && GS.Sound(s.db) && TaskSound(s.db, s.tasks[k])
    ensures GS.Grows(s.db, Resume(s, k, freshId, freshToken).db)
  {
    if s.tasks[k].Mark? {
      GS.MarkedKeeps(s.db, s.tasks[k].id, s.tasks[k].now);
    } else if s.tasks[k].Issue? {
      GS.GrantInsertedKeeps(s.db, freshId, IssuedRow(s.tasks[k], freshToken, s.clock));
    } else {
      OnlyMarksAndIssuesWrite(s, k, freshId, freshToken);
    }
  }

  lemma ReceiveWritesNothing(s: Sys, ws: Socket, frame: Frame)
    ensures Receive(s, ws, frame).db == s.db
  {
  }

  /** Only resumed tasks, new devices and heartbeats write grants or devices. */
  lemma OthersWriteNothing(s: Sys, e: Event)
    requires !e.Advance? && !e.NewDevice? && !e.Heartbeat?
    ensures Step(s, e).db.grants == s.db.grants && Step(s, e).db.devices == s.db.devices
  {
    if e.Received? { ReceiveWritesNothing(s, e.ws, e.frame); }
  }

  lemma SameRowsGrow(a: GS.Db, b: GS.Db)
    requires a.grants == b.grants && a.devices == b.devices
    ensures GS.Grows(a, b)
  {
  }

  lemma StepGrows(s: Sys, e: Event)
    requires GS.Sound(s.db) && forall k | k in s.tasks :: TaskSound(s.db, s.tasks[k])
    ensures GS.Grows(s.db, Step(s, e).db)
  {
    match e
    case Advance(k, freshId, freshToken) =>
      if k in s.tasks {
        ResumeGrows(s, k, freshId, freshToken);
      }
    case NewDevice(id, device) => GS.DeviceInsertedKeeps(s.db, id, device);
    case Heartbeat(id, name, deviceType) => GS.DeviceUpdatedKeeps(s.db, id, name, deviceType, s.clock);
    case _ =>
      OthersWriteNothing(s, e);
      SameRowsGrow(s.db, Step(s, e).db);
  }

  lemma GrowsTrans(a: GS.Db, b: GS.Db, c: GS.Db)
    requires GS.Grows(a, b) && GS.Grows(b, c)
    ensures GS.Grows(a, c)
  {
  }

  /**
   * However a run goes on, no grant disappears or changes anything but its consumption mark, a mark
   * once set never changes, and no device ever changes its user or its relay username.
   */
  lemma {:induction false} MarksAndRoutesAreForever(start: Sys, events: seq<Event>, more: seq<Event>)
    requires IsStart(start)
    ensures GS.Grows(Run(start, events).db, Run(start, events + more).db)
  {
    if more == [] {
      assert events + more == events;
    } else {
      var front, last := more[..|more| - 1], more[|more| - 1];
      assert (events + more)[..|events + more| - 1] == events + front;
      MarksAndRoutesAreForever(start, events, front);
      RunBooks(start, events + front);
      StepGrows(Run(start, events + front), last);
      GrowsTrans(Run(start, events).db, Run(start, events + front).db, Run(start, events + more).db);
    }
  }

  predicate Revoked(db: GS.Db, sessionId: string) {
    sessionId in db.sessions && db.sessions[sessionId].revokedAt.Some?
  }

  lemma StepKeepsRevoked(s: Sys, e: Event, sessionId: string)
    requires Revoked(s.db, sessionId)
    ensures Revoked(Step(s, e).db, sessionId)
  {
    if e.Received? { ReceiveWritesNothing(s, e.ws, e.frame); }
  }

  /** A session that has been revoked is active at no instant of any later state, whatever happens in between. */
  lemma {:induction false} RevokedForever(start: Sys, events: seq<Event>, more: seq<Event>, sessionId: string)
    requires Revoked(Run(start, events).db, sessionId)
    ensures Revoked(Run(start, events + more).db, sessionId)
    ensures forall now :: !GS.SessionActive(Run(start, events + more).db, sessionId, now)
  {
    if more == [] {
      assert events + more == events;
    } else {
      var front, last := more[..|more| - 1], more[|more| - 1];
      assert (events + more)[..|events + more| - 1] == events + front;
      RevokedForever(start, events, front, sessionId);
      StepKeepsRevoked(Run(start, events + front), last, sessionId);
    }
  }

  // ---------- accounts ----------

  /** The pair joins a client to a server with the client's user and device. */
  predicate Accounts(u: Use) {
    u.Pairing? && u.row.grantType == GS.ClientConnect && SameAccount(u.serverAuth, u.row)
  }

  /**
   * On every run, whatever the sockets send, each pair was formed with its own consumed client grant, and
   * its server has the account of that grant if and only if it was registered under the username it
   * was waiting under.
   */
  lemma PairsMatchAccountsIff(start: Sys, events: seq<Event>)
    requires IsStart(start)
    ensures var s := Run(start, events);
            && s.h.formed == PairsOf(s.uses)
            && forall u | u in s.uses && u.Pairing? ::
                 && HasConsumed(s.db, u.id) && u.row.grantType == GS.ClientConnect
                 && (Accounts(u) <==> UseNamed(u))
  {
    RunBooks(start, events);
    var s := Run(start, events);
    forall u | u in s.uses && u.Pairing?
      ensures HasConsumed(s.db, u.id) && u.row.grantType == GS.ClientConnect && (Accounts(u) <==> UseNamed(u))
    {
      UseMatchesIff(s.db, u);
    }
  }

  lemma UseMatchesIff(db: GS.Db, u: Use)
    requires GS.Sound(db) && UseSound(db, u) && u.Pairing?
    ensures HasConsumed(db, u.id) && u.row.grantType == GS.ClientConnect && (Accounts(u) <==> UseNamed(u))
  {
    if u.server.Some? {
      AccountIsUsername(db, u.serverAuth.value, u.row, u.username, u.server.value.username);
    }
  }

  /**
   * As long as no socket has two control messages take effect, every pair ever formed joins a consumed
   * client grant to a server authenticated for the same user and the same device, whatever happens
   * between the awaits of the client's connection.
   */
  lemma EveryPairMatchesAccounts(start: Sys, events: seq<Event>)
    requires IsStart(start) && OneUseEach(Run(start, events).uses)
    ensures var s := Run(start, events);
            && s.h.formed == PairsOf(s.uses)
            && forall u | u in s.uses && u.Pairing? :: Accounts(u) && HasConsumed(s.db, u.id)
  {
    OneUseEachIsFree(start, events);
    RunNames(start, events);
    PairsMatchAccountsIff(start, events);
  }

  /**
   * On every run the account check of a client passes if and only if its grant is for the username it
   * asked for and the server it was checked against is registered under that username.
   */
  lemma AccountCheckIff(start: Sys, events: seq<Event>, k: nat)
    requires IsStart(start) && k in Run(start, events).tasks
    requires Run(start, events).tasks[k].Holding? && Run(start, events).tasks[k].purpose.ForClient?
    ensures var t := Run(start, events).tasks[k];
            VerdictOf(t.row, t.purpose) == Matches <==>
              t.row.relayUsername == t.purpose.username && t.purpose.waiting.server.username == t.purpose.username
  {
    RunBooks(start, events);
    var s := Run(start, events);
    var t := s.tasks[k];
    HeldRowRouted(s, k, t.purpose, t.id, t.row);
    AccountIsUsername(s.db, t.purpose.waiting.auth.value, t.row, t.row.relayUsername, t.purpose.waiting.server.username);
  }

  /**
   * While every control message that takes effect comes from a free socket, a client whose grant is for
   * the username it asked for finds the server's account equal to its own: neither `auth_required` nor
   * `account_mismatch` can be the verdict.
   */
  lemma AccountCheckCannotFail(start: Sys, events: seq<Event>, k: nat)
    requires IsStart(start) && AllFree(start, events) && k in Run(start, events).tasks
    requires Run(start, events).tasks[k].Holding? && Run(start, events).tasks[k].purpose.ForClient?
    ensures var t := Run(start, events).tasks[k];
            VerdictOf(t.row, t.purpose) == if t.row.relayUsername == t.purpose.username then Matches else WrongRoute
  {
    RunNames(start, events);
    assert TaskNamed(Run(start, events).tasks[k]);
    AccountCheckIff(start, events, k);
  }

  /** So it is as long as no socket has two control messages take effect. */
  lemma OneUseEachPassesCheck(start: Sys, events: seq<Event>, k: nat)
    requires IsStart(start) && OneUseEach(Run(start, events).uses) && k in Run(start, events).tasks
    requires Run(start, events).tasks[k].Holding? && Run(start, events).tasks[k].purpose.ForClient?
    ensures var t := Run(start, events).tasks[k];
            VerdictOf(t.row, t.purpose) == if t.row.relayUsername == t.purpose.username then Matches else WrongRoute
  {
    OneUseEachIsFree(start, events);
    AccountCheckCannotFail(start, events, k);
  }

  // ---------- a server replaced while a client waits ----------

  /** A suspended registration that will succeed when it resumes. */
  predicate WillRegister(s: Sys, k: nat) {
    RegistersNow(s, Advance(k, "", ""))
  }

  lemma RegistrationResumed(s: Sys, k: nat)
    requires WillRegister(s, k)
    ensures var p, row := s.tasks[k].purpose, s.tasks[k].row;
            var n := Step(s, Advance(k, "", ""));
            && n.tasks == s.tasks - {k} && n.db == s.db
            && n.h.m == Registered(s.h.m, p.ws, ActiveServer(p.username, p.installId, s.clock, Waiting, p.metadata),
                                   Some(Auth(row.userId, row.sessionId, row.deviceId)))
            && n.h.rows == Claimed(s.h.rows, p.username, p.installId, s.clock)
  {
  }

  lemma PairingResumed(s: Sys, k: nat)
    requires k in s.tasks && s.tasks[k].Cleared? && Connects(s.h, s.tasks[k].username)
    ensures var t := s.tasks[k];
            Step(s, Advance(k, "", "")).uses == s.uses + [PairingOf(s.h.m, t.ws, t.username, t.id, t.row, t.serverSession)]
  {
  }

  lemma ReplacedThenReady(s: Sys, server: nat, client: nat)
    requires WillRegister(s, server) && client in s.tasks && s.tasks[client].Cleared?
    requires s.tasks[server].purpose.username == s.tasks[client].username
    ensures var after, username := Step(s, Advance(server, "", "")), s.tasks[client].username;
            && client in after.tasks && after.tasks[client] == s.tasks[client] && Connects(after.h, username)
            && after.h.m.waiting[username] == s.tasks[server].purpose.ws && WaitsUnderOwnName(after.h.m, username)
  {
    RegistrationResumed(s, server);
  }

  lemma ClientIsPairedSoundly(s: Sys, client: nat)
    requires Books(s) && client in s.tasks && s.tasks[client].Cleared? && Connects(s.h, s.tasks[client].username)
    requires WaitsUnderOwnName(s.h.m, s.tasks[client].username)
    ensures var t, n := s.tasks[client], Step(s, Advance(client, "", ""));
            && |n.uses| == |s.uses| + 1 && Accounts(n.uses[|s.uses|])
            && n.uses[|s.uses|].pair == Pair(s.h.m.waiting[t.username], t.ws)
  {
    var t := s.tasks[client];
    PairedAccountMatchesIff(s, client);
    ClearedRowRouted(s, client, t.ws, t.username, t.id, t.row, t.serverSession);
    PairingResumed(s, client);
  }

  /**
   * On every run: a server that registers under the username while a cleared client is suspended, in
   * the place of the one the client was checked against, is the one the client is paired with, and its
   * account is the client's.
   */
  lemma ReplacementIsPairedSoundly(start: Sys, events: seq<Event>, server: nat, client: nat)
    requires IsStart(start) && WillRegister(Run(start, events), server)
    requires client in Run(start, events).tasks && Run(start, events).tasks[client].Cleared?
    requires Run(start, events).tasks[server].purpose.username == Run(start, events).tasks[client].username
    ensures var s := Run(start, events);
            var after := Step(s, Advance(server, "", ""));
            var n := Step(after, Advance(client, "", ""));
            && |n.uses| == |after.uses| + 1 && Accounts(n.uses[|after.uses|])
            && n.uses[|after.uses|].pair == Pair(s.tasks[server].purpose.ws, s.tasks[client].ws)
  {
    var s := Run(start, events);
    RunBooks(start, events);
    ReplacedThenReady(s, server, client);
    StepKeepsBooks(s, Advance(server, "", ""));
    ClientIsPairedSoundly(Step(s, Advance(server, "", "")), client);
  }

  // ---------- the five maps ----------

  lemma RegistrationOnlyIfFree(s: Sys, e: Event)
    requires Consistent(s.h.m) && Consistent(Step(s, e).h.m) && RegistersNow(s, e)
    ensures Free(s, e)
  {
    var Holding(p, id, row) := s.tasks[e.task];
    RegisteredConsistentIff(s.h.m, p.ws, ActiveServer(p.username, p.installId, s.clock, Waiting, p.metadata),
                            Some(Auth(row.userId, row.sessionId, row.deviceId)));
  }

  lemma PairingOnlyIfFree(s: Sys, e: Event)
    requires Consistent(s.h.m) && Consistent(Step(s, e).h.m) && PairsNow(s, e)
    ensures Free(s, e)
  {
    ConnectedConsistentIff(s.h.m, s.tasks[e.task].ws, s.tasks[e.task].username);
  }

  lemma StepConsistentOnlyIfFree(s: Sys, e: Event)
    requires Consistent(s.h.m) && Consistent(Step(s, e).h.m)
    ensures Free(s, e)
  {
    if RegistersNow(s, e) { RegistrationOnlyIfFree(s, e); }
    if PairsNow(s, e) { PairingOnlyIfFree(s, e); }
  }

  /**
   * On every run, under every interleaving, the five maps agree after each step if and only if each
   * control message that took effect did so on a socket that was free for it at that moment.
   */
  lemma {:induction false} MapsAgreeIffSocketsFree(start: Sys, events: seq<Event>)
    requires IsStart(start)
    ensures AlwaysConsistent(start, events) <==> AllFree(start, events)
  {
    if events != [] {
      var front, last := events[..|events| - 1], events[|events| - 1];
      MapsAgreeIffSocketsFree(start, front);
      if AllFree(start, front) {
        RunNames(start, front);
        if Consistent(Run(start, events).h.m) {
          StepConsistentOnlyIfFree(Run(start, front), last);
        } else if Free(Run(start, front), last) {
          StepKeepsNames(Run(start, front), last);
        }
      }
    }
  }

  /** So they agree throughout as long as no socket has two control messages take effect. */
  lemma OneUseEachKeepsMaps(start: Sys, events: seq<Event>)
    requires IsStart(start) && OneUseEach(Run(start, events).uses)
    ensures AlwaysConsistent(start, events)
  {
    OneUseEachIsFree(start, events);
    MapsAgreeIffSocketsFree(start, events);
  }
}
