/**
 * The message and close handlers of packages/relay/src/ws-handler.ts without grants, as methods
 * over a `ConnectionManager`, proved to take exactly the steps of `OpenRelay`.
 */
module WsHandler {
  import opened Options
  import opened RelayMaps
  import opened Registry
  import opened Connections
  import opened Handler
  import opened OpenRelay

  /** What the relay answers; every answer but the two welcomes is followed by closing the socket. */
  datatype Answer =
    | ServerRegistered
    | ServerRejected(result: RegistrationResult)
    | ClientWelcome
    | ClientError(availability: Availability)

  /** The answer a frame must get: silence once paired, for binary frames and for other text. */
  function AnswerFor(h: Host, ws: Socket, frame: Frame): Option<Answer> {
    if ConnOf(h, ws).paired || frame.isBinary then None
    else
      match frame.message
      case ServerRegister(u, i, _, _) =>
        Some(if !IsValidRelayUsername(u) then ServerRejected(InvalidUsername)
             else if u in h.rows && h.rows[u].installId != i then ServerRejected(UsernameTaken)
             else ServerRegistered)
      case ClientConnect(u, _) =>
        Some(match AvailabilityOf(h.m, h.rows, u)
             case Ready => ClientWelcome
             case other => ClientError(other))
      case Other => None
  }

  lemma OpeningKeeps(h: Host, ws: Socket)
    requires Invariant(h) && ws !in h.closed
    ensures Invariant(WithConn(h, ws, ConnOf(h, ws)))
    ensures forall u | u in h.m.waiting :: h.m.waiting[u] !in h.closed
  {
  }

  /** Creating a socket's state on its first message changes neither the answer nor the step. */
  lemma OpeningIsInvisible(h: Host, ws: Socket, frame: Frame, now: int)
    requires ws !in h.closed
    ensures var n := WithConn(h, ws, ConnOf(h, ws));
            && (Free(n, Received(ws, frame, now)) <==> Free(h, Received(ws, frame, now)))
            && AnswerFor(n, ws, frame) == AnswerFor(h, ws, frame)
            && Receive(n, ws, frame, now) == Receive(h, ws, frame, now)
  {
    var n := WithConn(h, ws, ConnOf(h, ws));
    assert WithConn(n, ws, ConnOf(n, ws)) == n;
    if ws in h.conns {
      assert h.conns == h.conns[ws := h.conns[ws]];
      assert n == h;
    }
  }

  // ---------- what the answers tell ----------

  /** 3 to 32 lower-case letters, digits and hyphens, none of these at either end. */
  predicate WellFormed(u: string) {
    && 3 <= |u| <= 32 && u[0] != '-' && u[|u| - 1] != '-'
    && forall k | 0 <= k < |u| :: 'a' <= u[k] <= 'z' || '0' <= u[k] <= '9' || u[k] == '-'
  }

  /**
   * The answer to a frame tells what it has done to the relay, which was `h` and is `n`. Binary frames, other text
   * and frames of a paired socket get none. A welcome means a pair with this very client, a registration that
   * the socket waits under the username as it asked to; each refusal has its own reason and changes nothing.
   */
  ghost predicate Tells(h: Host, n: Host, ws: Socket, frame: Frame, now: int, answer: Option<Answer>) {
    && (answer == None <==> frame.isBinary || frame.message.Other? || (ws in h.conns && h.conns[ws].paired))
    && (answer == None ==> n.m == h.m && n.rows == h.rows && n.formed == h.formed)
    && (answer != None && frame.message.ServerRegister? ==>
          var ServerRegister(u, i, metadata, _) := frame.message;
          && n.formed == h.formed
          && (answer == Some(ServerRegistered) <==>
                u in n.m.waiting && n.m.waiting[u] == ws && ws in n.m.activeServers
                && n.m.activeServers[ws] == ActiveServer(u, i, now, Waiting, metadata))
          && (answer == Some(ServerRejected(InvalidUsername)) <==> !WellFormed(u))
          && (answer == Some(ServerRejected(UsernameTaken)) <==> WellFormed(u) && u in h.rows && h.rows[u].installId != i)
          && (answer != Some(ServerRegistered) ==> answer.value.ServerRejected? && n.m == h.m && n.rows == h.rows))
    && (answer != None && frame.message.ClientConnect? ==>
          var u := frame.message.username;
          && (answer == Some(ClientWelcome) <==> n.formed != h.formed)
          && (answer == Some(ClientWelcome) ==>
                && u in h.m.waiting && n.formed == h.formed + [Pair(h.m.waiting[u], ws)]
                && ws in n.m.pairLookup && n.m.pairLookup[ws] == Pair(h.m.waiting[u], ws))
          && (answer == Some(ClientError(Unknown)) <==> u !in h.rows)
          && (answer == Some(ClientError(Offline)) <==> u in h.rows && u !in h.m.waiting)
          && (answer != Some(ClientWelcome) ==> answer.value.ClientError? && n.m == h.m && n.rows == h.rows))
  }

  lemma RegistrationAnswers(h: Host, ws: Socket, frame: Frame, now: int)
    requires frame.message.ServerRegister? && Owned(h.m, h.rows) && ws !in h.closed
    ensures Tells(h, Receive(h, ws, frame, now), ws, frame, now, AnswerFor(h, ws, frame))
  {
  }

  lemma ConnectionAnswers(h: Host, ws: Socket, frame: Frame, now: int)
    requires frame.message.ClientConnect? && ws !in h.closed
    ensures Tells(h, Receive(h, ws, frame, now), ws, frame, now, AnswerFor(h, ws, frame))
  {
    assert Receive(h, ws, frame, now).formed != h.formed ==> |Receive(h, ws, frame, now).formed| == |h.formed| + 1;
  }

  lemma AnswersTell(h: Host, ws: Socket, frame: Frame, now: int)
    requires Owned(h.m, h.rows) && ws !in h.closed
    ensures Tells(h, Receive(h, ws, frame, now), ws, frame, now, AnswerFor(h, ws, frame))
  {
    match frame.message
    case ServerRegister(_, _, _, _) => RegistrationAnswers(h, ws, frame, now);
    case ClientConnect(_, _) => ConnectionAnswers(h, ws, frame, now);
    case Other =>
  }

  class RelayHandler {
    const manager: ConnectionManager
    var connectionStates: map<Socket, Conn>
    ghost var closed: set<Socket>
    ghost var formed: seq<Pair>
    ghost var reported: seq<Pair>
    ghost var sent: seq<Delivery>

    /** The relay as `OpenRelay` describes it. */
    ghost function View(): Host
      reads this, manager, manager.registry
    {
      Host(manager.registry.rows, manager.State(), connectionStates, closed, formed, reported, sent)
    }

    ghost predicate Valid()
      reads this, manager, manager.registry
    {
      Invariant(View())
    }

    constructor (manager: ConnectionManager)
      requires manager.State() == EMPTY
      ensures this.manager == manager && View() == Started(manager.registry.rows) && Valid()
    {
      this.manager := manager;
      connectionStates := map[];
      closed, formed, reported, sent := {}, [], [], [];
    }

    method GetState(ws: Socket) returns (state: Conn)
      requires ws !in closed
      modifies this`connectionStates
      ensures state == ConnOf(old(View()), ws)
      ensures View() == WithConn(old(View()), ws, state)
    {
      if ws in connectionStates {
        state := connectionStates[ws];
        assert connectionStates == connectionStates[ws := state];
      } else {
        state := FRESH;
        connectionStates := connectionStates[ws := state];
      }
    }

    method Register(ws: Socket, state: Conn, username: string, installId: string, metadata: Metadata, now: int)
      returns (result: RegistrationResult)
      requires ws !in closed && state == ConnOf(View(), ws)
      modifies this`connectionStates, manager, manager.registry
      ensures View() == RegisterEffect(old(View()), ws, username, installId, metadata, None, now)
      ensures result == if !IsValidRelayUsername(username) then InvalidUsername
                        else if !MayOwn(old(manager.registry.rows), username, installId) then UsernameTaken
                        else Accepted
    {
      result := manager.RegisterServer(ws, username, installId, metadata, None, now);
      if result == Accepted {
        connectionStates := connectionStates[ws := state.(username := Some(username), isServer := true)];
      }
    }

    method Connect(ws: Socket, username: string, now: int) returns (availability: Availability)
      requires ws !in closed
      requires username in manager.waiting ==> manager.waiting[username] !in closed
      modifies this, manager, manager.registry
      ensures View() == ConnectEffect(old(View()), ws, username, now)
      ensures availability == AvailabilityOf(old(manager.State()), old(manager.registry.rows), username)
    {
      var result := manager.ConnectClient(ws, username, now);
      match result {
        case ClientConnected(serverWs, _, _) =>
          connectionStates := connectionStates[ws := Conn(Some(username), false, true)];
          formed := formed + [Pair(serverWs, ws)];
          var serverState := GetState(serverWs);
          connectionStates := connectionStates[serverWs := serverState.(paired := true)];
          return Ready;
        case ServerOffline => return Offline;
        case UnknownUsername => return Unknown;
      }
    }

    method Forward(ws: Socket, frame: Frame)
      modifies this`sent, manager`calls
      ensures View() == ForwardEffect(old(View()), ws, frame.data, frame.isBinary)
    {
      manager.Forward(ws, frame.data, frame.isBinary);
      if ws in manager.pairLookup {
        sent := sent + [Delivery(ws, Partner(manager.State(), ws), frame.data, frame.isBinary)];
      }
    }

    /** The branches of `onMessage`, once the socket has its state. */
    method Dispatch(ws: Socket, state: Conn, frame: Frame, now: int) returns (answer: Option<Answer>)
      requires ws in connectionStates && connectionStates[ws] == state && ws !in closed
      requires forall u | u in manager.waiting :: manager.waiting[u] !in closed
      modifies this, manager, manager.registry
      ensures answer == AnswerFor(old(View()), ws, frame)
      ensures View() == Receive(old(View()), ws, frame, now)
    {
      assert WithConn(View(), ws, state) == View();
      if state.paired {
        Forward(ws, frame);
        return None;
      }
      if frame.isBinary {
        return None;
      }
      match frame.message {
        case ServerRegister(username, installId, metadata, _) =>
          var result := Register(ws, state, username, installId, metadata, now);
          return Some(if result == Accepted then ServerRegistered else ServerRejected(result));
        case ClientConnect(username, _) =>
          var availability := Connect(ws, username, now);
          return Some(if availability == Ready then ClientWelcome else ClientError(availability));
        case Other =>
          return None;
      }
    }

    /**
     * Takes the step `Receive`, so the handler stays valid whenever the frame comes from a free socket; the answer tells
     * what has happened, and exactly a refusal is followed by closing the socket.
     */
    method OnMessage(ws: Socket, frame: Frame, now: int) returns (answer: Option<Answer>, closes: bool)
      requires Valid() && ws !in closed
      modifies this, manager, manager.registry
      ensures View() == Receive(old(View()), ws, frame, now)
      ensures Free(old(View()), Received(ws, frame, now)) ==> Valid()
      ensures Tells(old(View()), View(), ws, frame, now, answer)
      ensures closes <==> answer.Some? && (answer.value.ServerRejected? || answer.value.ClientError?)
    {
      var state := GetState(ws);
      OpeningKeeps(old(View()), ws);
      OpeningIsInvisible(old(View()), ws, frame, now);
      ghost var entered := View();
      answer := Dispatch(ws, state, frame, now);
      closes := answer.Some? && answer.value != ServerRegistered && answer.value != ClientWelcome;
      AnswersTell(old(View()), ws, frame, now);
      if Free(entered, Received(ws, frame, now)) {
        StepKeeps(entered, Received(ws, frame, now));
      }
    }

    /**
     * Takes the step `CloseEffect`, which leaves no trace of the socket; the flag says whether telemetry records a
     * disconnected pair.
     */
    method OnClose(ws: Socket) returns (pairReported: bool)
      requires Valid() && ws !in closed
      modifies this, manager
      ensures View() == CloseEffect(old(View()), ws) && Valid()
      ensures pairReported == (ws in old(manager.pairLookup))
      ensures ws !in manager.pairLookup && ws !in connectionStates && forall u | u in manager.waiting :: manager.waiting[u] != ws
    {
      ghost var before := View();
      CloseKeeps(before, ws);
      CloseUntracks(before, ws);
      var state := if ws in connectionStates then connectionStates[ws] else FRESH;
      var result := manager.HandleClose(ws, state.username);
      pairReported := result.PairDisconnected? && state.username.Some? && state.username.value != "";
      if pairReported {
        reported := reported + [result.pair];
      }
      connectionStates := connectionStates - {ws};
      closed := closed + {ws};
    }
  }
}
