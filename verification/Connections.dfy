/**
 * `ConnectionManager` of packages/relay/src/connections.ts: five maps updated in place, tied
 * operation by operation to the functions of `RelayMaps`.
 */
module Connections {
  import opened Options
  import opened RelayMaps
  import opened Registry

  type Payload = seq<bv8>

  /** What the manager does to a socket. */
  datatype Call =
    | Close(ws: Socket, code: nat, reason: string)
    | Send(ws: Socket, data: Payload, isBinary: bool)

  datatype RegistrationResult = Accepted | UsernameTaken | InvalidUsername

  datatype ConnectionResult =
    | ClientConnected(serverWs: Socket, server: Option<ActiveServer>, serverAuth: Option<Auth>)
    | ServerOffline
    | UnknownUsername

  datatype Availability = Unknown | Offline | Ready

  datatype WaitingInfo = WaitingInfo(ws: Socket, server: ActiveServer, auth: Option<Auth>)

  /** Every tracked server holds a well-formed username that the registry gives to its installation. */
  predicate Owned(m: Maps, rows: Rows) {
    forall ws | ws in m.activeServers ::
      var server := m.activeServers[ws];
      && IsValidRelayUsername(server.username)
      && server.username in rows && rows[server.username].installId == server.installId
  }

  function AvailabilityOf(m: Maps, rows: Rows, username: string): Availability {
    if username !in rows then Unknown else if username !in m.waiting then Offline else Ready
  }

  function WaitingInfoOf(m: Maps, username: string): Option<WaitingInfo> {
    if username !in m.waiting || m.waiting[username] !in m.activeServers then None
    else
      var ws := m.waiting[username];
      Some(WaitingInfo(ws, m.activeServers[ws], Get(m.serverAuth, ws)))
  }

  /** The maps agree, and the registry owns every tracked server. */
  predicate InStep(m: Maps, rows: Rows) {
    Consistent(m) && Owned(m, rows)
  }

  lemma WaitingUsernameGiven(m: Maps, rows: Rows, u: string)
    requires InStep(m, rows) && u in m.waiting
    ensures u != ""
  {
    assert IsValidRelayUsername(m.activeServers[m.waiting[u]].username);
  }

  lemma RegisterKeepsValid(m: Maps, rows: Rows, ws: Socket, server: ActiveServer, auth: Option<Auth>, now: int)
    requires InStep(m, rows) && MayOwn(rows, server.username, server.installId) && server.state == Waiting
    ensures InStep(Registered(m, ws, server, auth), Claimed(rows, server.username, server.installId, now))
       <==> MayRegister(m, ws, server.username)
  {
    RegisteredConsistentIff(m, ws, server, auth);
    assert Owned(Registered(m, ws, server, auth), Claimed(rows, server.username, server.installId, now));
  }

  lemma ConnectKeepsValid(m: Maps, rows: Rows, ws: Socket, username: string, now: int)
    requires InStep(m, rows) && username in m.waiting
    ensures InStep(Connected(m, ws, username), Touched(rows, username, now)) <==> !Tracks(m, ws)
  {
    ConnectedConsistentIff(m, ws, username);
    assert Owned(Connected(m, ws, username), Touched(rows, username, now));
  }

  lemma CloseKeepsValid(m: Maps, rows: Rows, ws: Socket, username: Option<string>)
    ensures InStep(m, rows) ==> InStep(Closed(m, ws, username), rows)
    ensures InStep(m, rows) && ClosedResult(m, ws, username).PairDisconnected? ==>
              var result := ClosedResult(m, ws, username);
              && result.server.Some? && result.server.value.state == Paired
              && result.initiator == if ws in m.activeServers then ByServer else ByClient
  {
    if InStep(m, rows) {
      ClosedConsistent(m, ws, username);
      ClosedReportsThePair(m, ws, username);
    }
  }

  class ConnectionManager {
    var waiting: map<string, Socket>
    var pairs: set<Pair>
    var pairLookup: map<Socket, Pair>
    var activeServers: map<Socket, ActiveServer>
    var serverAuthByWs: map<Socket, Auth>
    const registry: UsernameRegistry
    /** The close and send calls made so far, in order. */
    var calls: seq<Call>

    function State(): Maps
      reads this
    {
      Maps(waiting, pairs, pairLookup, activeServers, serverAuthByWs)
    }

    predicate Valid()
      reads this, registry
    {
      InStep(State(), registry.rows)
    }

    constructor (registry: UsernameRegistry)
      ensures State() == EMPTY && this.registry == registry && calls == [] && Valid()
    {
      waiting, pairs, pairLookup := map[], {}, map[];
      activeServers, serverAuthByWs := map[], map[];
      this.registry := registry;
      calls := [];
    }

    /** The end of `registerServer`: the new server takes the place of the one that was waiting, if any. */
    method Wait(ws: Socket, server: ActiveServer, auth: Option<Auth>)
      modifies this
      ensures State() == Registered(old(State()), ws, server, auth)
      ensures calls == if server.username in old(waiting)
                       then old(calls) + [Close(old(waiting)[server.username], 1000, "Replaced by new connection")]
                       else old(calls)
    {
      ghost var after := Registered(State(), ws, server, auth);
      if server.username in waiting {
        var existing := waiting[server.username];
        activeServers := activeServers - {existing};
        serverAuthByWs := serverAuthByWs - {existing};
        calls := calls + [Close(existing, 1000, "Replaced by new connection")];
      }
      waiting := waiting[server.username := ws];
      activeServers := activeServers[ws := server];
      if auth.Some? {
        serverAuthByWs := serverAuthByWs[ws := auth.value];
      } else {
        serverAuthByWs := serverAuthByWs - {ws};
      }
      assert activeServers == after.activeServers;
      assert serverAuthByWs == after.serverAuth;
    }

    /**
     * Claims the username, drops and closes the server that was waiting under it, and waits in its
     * place. The maps stay in agreement exactly when the claim fails or the socket was free.
     */
    method RegisterServer(ws: Socket, username: string, installId: string, metadata: Metadata,
                          auth: Option<Auth>, now: int)
      returns (result: RegistrationResult)
      modifies this, registry
      ensures result == if !IsValidRelayUsername(username) then InvalidUsername
                        else if !MayOwn(old(registry.rows), username, installId) then UsernameTaken
                        else Accepted
      ensures State() == if result != Accepted then old(State())
                         else Registered(old(State()), ws, ActiveServer(username, installId, now, Waiting, metadata), auth)
      ensures registry.rows == if result != Accepted then old(registry.rows)
                               else Claimed(old(registry.rows), username, installId, now)
      ensures calls == if result == Accepted && username in old(waiting)
                       then old(calls) + [Close(old(waiting)[username], 1000, "Replaced by new connection")]
                       else old(calls)
      ensures old(Valid()) ==> (Valid() <==> result != Accepted || MayRegister(old(State()), ws, username))
    {
      if !IsValidRelayUsername(username) {
        return InvalidUsername;
      }
      if !registry.CanRegister(username, installId) {
        return UsernameTaken;
      }
      var claimed := registry.Register(username, installId, now);
      if !claimed {
        return UsernameTaken;
      }
      ghost var before, rows := State(), old(registry.rows);
      var server := ActiveServer(username, installId, now, Waiting, metadata);
      Wait(ws, server, auth);
      if InStep(before, rows) {
        RegisterKeepsValid(before, rows, ws, server, auth, now);
      }
      return Accepted;
    }

    function GetClientAvailability(username: string): Availability
      reads this, registry
    {
      AvailabilityOf(State(), registry.rows, username)
    }

    function GetWaitingServerInfo(username: string): Option<WaitingInfo>
      reads this
    {
      WaitingInfoOf(State(), username)
    }

    /**
     * Pairs a client with the server waiting under the username. The maps stay in agreement exactly
     * when no pair is formed or the client was untracked; when they were in agreement the pair
     * really carries the waiting server's description.
     */
    method ConnectClient(ws: Socket, username: string, now: int) returns (result: ConnectionResult)
      modifies this, registry
      ensures result.UnknownUsername? <==> username !in old(registry.rows)
      ensures result.ServerOffline? <==> username in old(registry.rows) && username !in old(waiting)
      ensures result.ClientConnected? ==>
                && result.serverWs == old(waiting)[username]
                && result.serverAuth == Get(old(serverAuthByWs), result.serverWs)
                && result.server == Get(activeServers, result.serverWs)
      ensures State() == if result.ClientConnected? then Connected(old(State()), ws, username) else old(State())
      ensures registry.rows == if result.ClientConnected? then Touched(old(registry.rows), username, now)
                               else old(registry.rows)
      ensures calls == old(calls)
      ensures old(Valid()) ==> (Valid() <==> !result.ClientConnected? || !Tracks(old(State()), ws))
      ensures old(Valid()) && result.ClientConnected? ==>
                && result.server.Some? && result.server.value.username == username
                && result.server.value.state == Paired
    {
      if !registry.IsRegistered(username) {
        return UnknownUsername;
      }
      if username !in waiting {
        return ServerOffline;
      }
      ghost var before, rows := State(), registry.rows;
      var serverWs := waiting[username];
      waiting := waiting - {username};
      if serverWs in activeServers {
        activeServers := activeServers[serverWs := activeServers[serverWs].(state := Paired)];
      }
      var pair := Pair(serverWs, ws);
      pairs := pairs + {pair};
      pairLookup := pairLookup[serverWs := pair];
      pairLookup := pairLookup[ws := pair];
      registry.UpdateLastSeen(username, now);
      assert State() == Connected(before, ws, username);
      if InStep(before, rows) {
        ConnectKeepsValid(before, rows, ws, username, now);
      }
      return ClientConnected(serverWs, Get(activeServers, serverWs), Get(serverAuthByWs, serverWs));
    }

    /** Sends the frame, unchanged and with its type, to the partner and to nobody else. */
    method Forward(ws: Socket, data: Payload, isBinary: bool)
      modifies this`calls
      ensures calls == if ws in pairLookup then old(calls) + [Send(Partner(State(), ws), data, isBinary)] else old(calls)
    {
      if ws !in pairLookup {
        return;
      }
      var pair := pairLookup[ws];
      var target := if pair.server == ws then pair.client else pair.server;
      calls := calls + [Send(target, data, isBinary)];
    }

    /** The end of `handleClose` for a paired socket: the pair and its server are forgotten, the other end is closed. */
    method DropPair(ws: Socket, pair: Pair) returns (server: Option<ActiveServer>)
      modifies this
      ensures server == Get(old(activeServers), pair.server)
      ensures var m := old(State());
              State() == m.(pairs := m.pairs - {pair}, pairLookup := m.pairLookup - {pair.server, pair.client},
                            activeServers := m.activeServers - {pair.server}, serverAuth := m.serverAuth - {pair.server})
      ensures calls == old(calls) + [Close(if pair.server == ws then pair.client else pair.server, 1000, "Peer disconnected")]
    {
      server := Get(activeServers, pair.server);
      pairs := pairs - {pair};
      pairLookup := pairLookup - {pair.server};
      pairLookup := pairLookup - {pair.client};
      activeServers := activeServers - {pair.server};
      serverAuthByWs := serverAuthByWs - {pair.server};
      var other := if pair.server == ws then pair.client else pair.server;
      calls := calls + [Close(other, 1000, "Peer disconnected")];
      assert pairLookup == old(pairLookup) - {pair.server, pair.client};
    }

    /** Forgets a closed socket, with its pair if it had one, and closes the other end. */
    method HandleClose(ws: Socket, username: Option<string>) returns (result: CloseResult)
      modifies this
      ensures State() == Closed(old(State()), ws, username)
      ensures result == ClosedResult(old(State()), ws, username)
      ensures calls == if result.PairDisconnected?
                       then old(calls) + [Close(Partner(old(State()), ws), 1000, "Peer disconnected")]
                       else old(calls)
      ensures old(Valid()) ==> Valid()
      ensures old(Valid()) && result.PairDisconnected? ==>
                && result.server.Some? && result.server.value.state == Paired
                && result.initiator == (if ws in old(activeServers) then ByServer else ByClient)
    {
      ghost var before := State();
      if username.Some? && username.value != "" {
        if username.value in waiting && waiting[username.value] == ws {
          var server := Get(activeServers, ws);
          waiting := waiting - {username.value};
          activeServers := activeServers - {ws};
          serverAuthByWs := serverAuthByWs - {ws};
          CloseKeepsValid(before, registry.rows, ws, username);
          return WaitingServerClosed(server);
        }
      }
      CloseKeepsValid(before, registry.rows, ws, username);
      if ws in pairLookup {
        var pair := pairLookup[ws];
        var server := DropPair(ws, pair);
        assert State() == Closed(before, ws, username);
        return PairDisconnected(pair, if pair.server == ws then ByServer else ByClient, server);
      }
      return NothingClosed;
    }

    /** Asks every server bound to the session to close, each exactly once, and nobody else. */
    method DisconnectServersBySession(sessionId: string, reason: string) returns (closed: nat)
      modifies this`calls
      ensures closed == |set ws | ws in serverAuthByWs && serverAuthByWs[ws].sessionId == sessionId|
      ensures |calls| == |old(calls)| + closed && calls[..|old(calls)|] == old(calls)
      ensures forall ws :: Close(ws, 4001, reason) in calls[|old(calls)|..]
                       <==> ws in serverAuthByWs && serverAuthByWs[ws].sessionId == sessionId
      ensures forall k | |old(calls)| <= k < |calls| :: calls[k].Close? && calls[k].code == 4001 && calls[k].reason == reason
    {
      closed := 0;
      var rest := serverAuthByWs.Keys;
      ghost var base := |calls|;
      ghost var done: set<Socket> := {};
      while rest != {}
        invariant rest <= serverAuthByWs.Keys
        invariant done == set ws | ws in serverAuthByWs.Keys - rest && serverAuthByWs[ws].sessionId == sessionId
        invariant closed == |done|
        invariant |calls| == base + closed && calls[..base] == old(calls)
        invariant forall k | base <= k < |calls| ::
                    calls[k].Close? && calls[k].code == 4001 && calls[k].reason == reason && calls[k].ws in done
        invariant forall ws | ws in done :: Close(ws, 4001, reason) in calls[base..]
        decreases rest
      {
        var ws :| ws in rest;
        rest := rest - {ws};
        if serverAuthByWs[ws].sessionId != sessionId {
          continue;
        }
        closed := closed + 1;
        ghost var before := calls;
        calls := calls + [Close(ws, 4001, reason)];
        assert calls[base..] == before[base..] + [Close(ws, 4001, reason)];
        done := done + {ws};
      }
      assert done == set ws | ws in serverAuthByWs && serverAuthByWs[ws].sessionId == sessionId;
    }
  }
}
