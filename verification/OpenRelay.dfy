/**
 * The relay without grants (packages/relay/src/server.ts): every message is handled in one
 * uninterrupted stretch, so its runs are sequences of received frames and closes.
 */
module OpenRelay {
  import opened Options
  import opened RelayMaps
  import opened Registry
  import opened Connections
  import opened Handler

  datatype Event = Received(ws: Socket, frame: Frame, now: int) | Gone(ws: Socket)

  /** `onMessage` when grants are not required. */
  function Receive(h: Host, ws: Socket, frame: Frame, now: int): Host {
    if ConnOf(h, ws).paired then ForwardEffect(h, ws, frame.data, frame.isBinary)
    else if frame.isBinary then WithConn(h, ws, ConnOf(h, ws))
    else
      match frame.message
      case ServerRegister(u, i, metadata, _) =>
        RegisterEffect(WithConn(h, ws, ConnOf(h, ws)), ws, u, i, metadata, None, now)
      case ClientConnect(u, _) => ConnectEffect(WithConn(h, ws, ConnOf(h, ws)), ws, u, now)
      case Other => WithConn(h, ws, ConnOf(h, ws))
  }

  function Step(h: Host, e: Event): Host {
    match e
    case Received(ws, frame, now) => Receive(h, ws, frame, now)
    case Gone(ws) => CloseEffect(h, ws)
  }

  function Run(rows: Rows, events: seq<Event>): Host {
    if events == [] then Started(rows) else Step(Run(rows, events[..|events| - 1]), events[|events| - 1])
  }

  /** The WebSocket library delivers nothing for a socket after its close event. */
  predicate Lawful(rows: Rows, events: seq<Event>) {
    events == [] || (Lawful(rows, events[..|events| - 1]) && events[|events| - 1].ws !in Run(rows, events[..|events| - 1]).closed)
  }

  /** The frame is a control message that succeeds. */
  predicate Controls(h: Host, e: Event) {
    && e.Received? && !ConnOf(h, e.ws).paired && !e.frame.isBinary
    && match e.frame.message
       case ServerRegister(u, i, _, _) => Registers(h, u, i)
       case ClientConnect(u, _) => Connects(h, u)
       case Other => false
  }

  /** A control message that succeeds comes from a socket the maps have room for. */
  predicate Free(h: Host, e: Event) {
    Controls(h, e) ==>
      match e.frame.message
      case ServerRegister(u, _, _, _) => MayRegister(h.m, e.ws, u)
      case ClientConnect(_, _) => !Tracks(h.m, e.ws)
      case Other => true
  }

  predicate AllFree(rows: Rows, events: seq<Event>) {
    events == [] || (AllFree(rows, events[..|events| - 1]) && Free(Run(rows, events[..|events| - 1]), events[|events| - 1]))
  }

  /** The maps agree after every step of the run. */
  predicate AlwaysConsistent(rows: Rows, events: seq<Event>) {
    Consistent(Run(rows, events).m) && (events == [] || AlwaysConsistent(rows, events[..|events| - 1]))
  }

  // ---------- the invariant ----------

  predicate StatesAgree(h: Host) {
    && h.conns.Keys !! h.closed
    && (forall u | u in h.m.waiting ::
          var ws := h.m.waiting[u];
          ws in h.conns && h.conns[ws].username == Some(u) && h.conns[ws].isServer && !h.conns[ws].paired)
    && (forall ws | ws in h.m.pairLookup ::
          ws in h.conns && h.conns[ws].paired && h.conns[ws].username.Some? && h.conns[ws].username.value != "")
  }

  predicate HistoryAgrees(h: Host) {
    && multiset(h.formed) == multiset(h.m.pairs) + multiset(h.reported)
    && FormedApart(h.formed)
    && (forall p | p in h.formed :: Spent(h, p.server) && Spent(h, p.client))
    && (forall p | p in h.formed :: p in h.m.pairs || p.server in h.closed || p.client in h.closed)
  }

  predicate Invariant(h: Host) {
    InStep(h.m, h.rows) && StatesAgree(h) && HistoryAgrees(h)
  }

  lemma RegisterKeeps(h: Host, ws: Socket, u: string, i: string, metadata: Metadata, now: int)
    requires Invariant(h) && ws in h.conns && !h.conns[ws].paired
    requires Registers(h, u, i) ==> MayRegister(h.m, ws, u)
    ensures Invariant(RegisterEffect(h, ws, u, i, metadata, None, now))
  {
    if Registers(h, u, i) {
      RegisterKeepsValid(h.m, h.rows, ws, ActiveServer(u, i, now, Waiting, metadata), None, now);
      RegisterKeepsStates(h, ws, u, i, metadata, now);
      RegisterKeepsHistory(h, ws, u, i, metadata, now);
    }
  }

  lemma RegisterKeepsStates(h: Host, ws: Socket, u: string, i: string, metadata: Metadata, now: int)
    requires StatesAgree(h) && ws in h.conns && !h.conns[ws].paired
    requires Registers(h, u, i) && MayRegister(h.m, ws, u)
    ensures StatesAgree(RegisterEffect(h, ws, u, i, metadata, None, now))
  {
  }

  lemma RegisterKeepsHistory(h: Host, ws: Socket, u: string, i: string, metadata: Metadata, now: int)
    requires HistoryAgrees(h) && ws in h.conns
    ensures HistoryAgrees(RegisterEffect(h, ws, u, i, metadata, None, now))
  {
  }

  lemma ConnectKeeps(h: Host, ws: Socket, u: string, now: int)
    requires Invariant(h) && ws in h.conns && !h.conns[ws].paired
    requires Connects(h, u) ==> !Tracks(h.m, ws)
    ensures Invariant(ConnectEffect(h, ws, u, now))
  {
    if Connects(h, u) {
      ConnectKeepsValid(h.m, h.rows, ws, u, now);
      assert h.m.waiting[u] in h.m.waiting.Values;
      assert u != "" by {
        assert IsValidRelayUsername(h.m.activeServers[h.m.waiting[u]].username);
      }
      ConnectKeepsStates(h, ws, u, now);
      ConnectKeepsHistory(h, ws, u, now);
    }
  }

  lemma ConnectKeepsStates(h: Host, ws: Socket, u: string, now: int)
    requires StatesAgree(h) && ws in h.conns
    requires Connects(h, u) && u != "" && !Tracks(h.m, ws) && h.m.waiting[u] != ws && WaitingAgrees(h.m)
    ensures StatesAgree(ConnectEffect(h, ws, u, now))
  {
    var n := ConnectEffect(h, ws, u, now);
    var server := h.m.waiting[u];
    assert n.conns == h.conns[ws := Conn(Some(u), false, true)][server := h.conns[server].(paired := true)];
  }

  lemma ConnectSpends(h: Host, ws: Socket, u: string, now: int)
    requires StatesAgree(h) && ws in h.conns && Connects(h, u) && h.m.waiting[u] != ws
    ensures var n := ConnectEffect(h, ws, u, now);
            && Spent(n, ws) && Spent(n, h.m.waiting[u])
            && forall s | Spent(h, s) :: Spent(n, s)
  {
  }

  lemma ConnectKeepsHistory(h: Host, ws: Socket, u: string, now: int)
    requires HistoryAgrees(h) && StatesAgree(h) && PairsAgree(h.m) && WaitingAgrees(h.m)
    requires ws in h.conns && !h.conns[ws].paired && Connects(h, u) && h.m.waiting[u] != ws
    ensures HistoryAgrees(ConnectEffect(h, ws, u, now))
  {
    var n := ConnectEffect(h, ws, u, now);
    var server := h.m.waiting[u];
    var pair := Pair(server, ws);
    assert n.m.pairs == h.m.pairs + {pair} && n.formed == h.formed + [pair];
    assert n.reported == h.reported && n.closed == h.closed;
    ConnectSpends(h, ws, u, now);
    assert multiset(n.formed) == multiset(n.m.pairs) + multiset(n.reported) by {
      assert pair in h.m.pairs ==> EndsAt(h.m, pair, pair.server);
      assert pair !in h.m.pairs;
      assert multiset(n.m.pairs) == multiset(h.m.pairs) + multiset{pair};
    }
    assert FormedApart(n.formed) by {
      assert !Spent(h, server) && !Spent(h, ws);
      FormedApartExtends(h.formed, pair);
    }
  }

  lemma FormedApartExtends(formed: seq<Pair>, pair: Pair)
    requires FormedApart(formed) && pair.server != pair.client
    requires forall p | p in formed :: !EndOf(p, pair.server) && !EndOf(p, pair.client)
    ensures FormedApart(formed + [pair])
  {
  }

  lemma CloseKeeps(h: Host, ws: Socket)
    requires Invariant(h) && ws !in h.closed
    ensures Invariant(CloseEffect(h, ws))
  {
    CloseKeepsValid(h.m, h.rows, ws, ConnOf(h, ws).username);
    CloseKeepsStates(h, ws);
    CloseKeepsHistory(h, ws);
  }

  /** The closing socket is tracked no more. */
  lemma CloseUntracks(h: Host, ws: Socket)
    requires InStep(h.m, h.rows) && StatesAgree(h)
    ensures var n := CloseEffect(h, ws); ws !in n.m.pairLookup && forall u | u in n.m.waiting :: n.m.waiting[u] != ws
  {
    var n := CloseEffect(h, ws);
    forall u | u in n.m.waiting ensures n.m.waiting[u] != ws {
      WaitingUsernameGiven(h.m, h.rows, u);
    }
    assert ws in h.m.pairLookup ==> EndOf(h.m.pairLookup[ws], ws);
  }

  lemma CloseKeepsStates(h: Host, ws: Socket)
    requires InStep(h.m, h.rows) && StatesAgree(h)
    ensures StatesAgree(CloseEffect(h, ws))
  {
    CloseUntracks(h, ws);
  }

  lemma CloseKeepsHistory(h: Host, ws: Socket)
    requires Consistent(h.m) && StatesAgree(h) && HistoryAgrees(h)
    ensures HistoryAgrees(CloseEffect(h, ws))
  {
    var n := CloseEffect(h, ws);
    if ws in h.m.pairLookup {
      var pair := h.m.pairLookup[ws];
      ClosedReportsThePair(h.m, ws, ConnOf(h, ws).username);
      assert n.reported == h.reported + [pair];
      assert multiset(h.m.pairs) == multiset(n.m.pairs) + multiset{pair};
    }
    assert forall s | Spent(h, s) :: Spent(n, s);
  }

  lemma StepKeeps(h: Host, e: Event)
    requires Invariant(h) && e.ws !in h.closed && Free(h, e)
    ensures Invariant(Step(h, e))
  {
    match e
    case Gone(ws) => CloseKeeps(h, ws);
    case Received(ws, frame, now) =>
      if !ConnOf(h, ws).paired {
        var h1 := WithConn(h, ws, ConnOf(h, ws));
        assert Invariant(h1);
        if !frame.isBinary {
          match frame.message
          case ServerRegister(u, i, metadata, _) => RegisterKeeps(h1, ws, u, i, metadata, now);
          case ClientConnect(u, _) => ConnectKeeps(h1, ws, u, now);
          case Other =>
        }
      }
  }

  lemma {:induction false} RunInvariant(rows: Rows, events: seq<Event>)
    requires Lawful(rows, events) && AllFree(rows, events)
    ensures Invariant(Run(rows, events))
  {
    if events != [] {
      RunInvariant(rows, events[..|events| - 1]);
      StepKeeps(Run(rows, events[..|events| - 1]), events[|events| - 1]);
    }
  }

  // ---------- main results ----------

  lemma RegistrationMaps(h: Host, ws: Socket, u: string, i: string, metadata: Metadata, now: int)
    requires Registers(h, u, i)
    ensures RegisterEffect(WithConn(h, ws, ConnOf(h, ws)), ws, u, i, metadata, None, now).m
         == Registered(h.m, ws, ActiveServer(u, i, now, Waiting, metadata), None)
  {
  }

  lemma ConnectionMaps(h: Host, ws: Socket, u: string, now: int)
    requires Connects(h, u)
    ensures ConnectEffect(WithConn(h, ws, ConnOf(h, ws)), ws, u, now).m == Connected(h.m, ws, u)
  {
  }

  lemma StepConsistentOnlyIfFree(h: Host, e: Event)
    requires Consistent(h.m) && Consistent(Step(h, e).m)
    ensures Free(h, e)
  {
    if Controls(h, e) {
      match e.frame.message
      case ServerRegister(u, i, metadata, _) =>
        RegistrationMaps(h, e.ws, u, i, metadata, e.now);
        RegisteredConsistentIff(h.m, e.ws, ActiveServer(u, i, e.now, Waiting, metadata), None);
      case ClientConnect(u, _) =>
        ConnectionMaps(h, e.ws, u, e.now);
        ConnectedConsistentIff(h.m, e.ws, u);
      case Other =>
    }
  }

  /**
   * Exactly when the five maps stay in agreement: on every run, they agree after each step if and
   * only if each control message that succeeded came from a socket that was free for it.
   */
  lemma {:induction false} MapsAgreeIffSocketsFree(rows: Rows, events: seq<Event>)
    requires Lawful(rows, events)
    ensures AlwaysConsistent(rows, events) <==> AllFree(rows, events)
  {
    if events != [] {
      var front := events[..|events| - 1];
      MapsAgreeIffSocketsFree(rows, front);
      if AllFree(rows, front) {
        RunInvariant(rows, front);
        if Consistent(Run(rows, events).m) {
          StepConsistentOnlyIfFree(Run(rows, front), events[|events| - 1]);
        } else if Free(Run(rows, front), events[|events| - 1]) {
          StepKeeps(Run(rows, front), events[|events| - 1]);
        }
      }
    }
  }

  /**
   * A socket is free for any control message until one of its own has succeeded, so a run in which
   * no socket has a second success is one on which everything below holds.
   */
  lemma FirstSuccessIsFree(rows: Rows, events: seq<Event>, e: Event)
    requires Lawful(rows, events) && AllFree(rows, events)
    requires ConnOf(Run(rows, events), e.ws).username == None
    ensures Free(Run(rows, events), e)
  {
    RunInvariant(rows, events);
    var h := Run(rows, events);
    assert forall u | u in h.m.waiting :: h.conns[h.m.waiting[u]].username == Some(u);
    assert !Tracks(h.m, e.ws);
  }

  /** Every tracked socket has not closed, and its username belongs to the installation it registered with. */
  lemma TrackedSocketsAreOpen(rows: Rows, events: seq<Event>, ws: Socket)
    requires Lawful(rows, events) && AllFree(rows, events) && Tracks(Run(rows, events).m, ws)
    ensures ws !in Run(rows, events).closed
    ensures Owned(Run(rows, events).m, Run(rows, events).rows)
  {
    RunInvariant(rows, events);
  }

  /**
   * Each pair formed is reported as disconnected exactly once from the moment one of its ends has
   * closed, whichever end that is, and not before.
   */
  lemma DisconnectReportedOnce(rows: Rows, events: seq<Event>, p: Pair)
    requires Lawful(rows, events) && AllFree(rows, events)
    ensures var h := Run(rows, events);
            && multiset(h.formed)[p] <= 1
            && (p in h.formed ==>
                  multiset(h.reported)[p] == if p.server in h.closed || p.client in h.closed then 1 else 0)
            && (p !in h.formed ==> multiset(h.reported)[p] == 0)
  {
    RunInvariant(rows, events);
    var h := Run(rows, events);
    FormedOnce(h.formed, p);
    if p in h.m.pairs {
      assert EndsAt(h.m, p, p.server) && EndsAt(h.m, p, p.client);
    }
  }

  lemma {:induction false} FormedOnce(formed: seq<Pair>, p: Pair)
    requires FormedApart(formed)
    ensures multiset(formed)[p] == if p in formed then 1 else 0
  {
    if formed != [] {
      var front, last := formed[..|formed| - 1], formed[|formed| - 1];
      assert formed == front + [last];
      FormedOnce(front, p);
      assert forall i | 0 <= i < |front| :: front[i] == formed[i] && !EndOf(front[i], last.server);
      assert last !in front;
    }
  }

  function SocketsOf(events: seq<Event>): set<Socket> {
    set e | e in events :: e.ws
  }

  /** A step opens no state but its own socket's. */
  lemma StepStates(h: Host, e: Event)
    requires StatesAgree(h)
    ensures Step(h, e).conns.Keys <= h.conns.Keys + {e.ws}
  {
    if Controls(h, e) && e.frame.message.ClientConnect? {
      assert h.m.waiting[e.frame.message.username] in h.conns;
    }
  }

  lemma SocketsExtend(events: seq<Event>, e: Event)
    ensures SocketsOf(events + [e]) == SocketsOf(events) + {e.ws}
  {
    assert forall v | v in events :: v in events + [e];
    assert (events + [e])[|events|] == e;
  }

  lemma {:induction false} StatesBelongToSenders(rows: Rows, events: seq<Event>)
    requires Lawful(rows, events) && AllFree(rows, events)
    ensures Run(rows, events).conns.Keys <= SocketsOf(events)
  {
    if events != [] {
      var front, last := events[..|events| - 1], events[|events| - 1];
      assert events == front + [last];
      StatesBelongToSenders(rows, front);
      RunInvariant(rows, front);
      StepStates(Run(rows, front), last);
      SocketsExtend(front, last);
    }
  }

  /** Once every socket that ever appeared has closed, all five maps are empty. */
  lemma AllClosedLeavesNothing(rows: Rows, events: seq<Event>)
    requires Lawful(rows, events) && AllFree(rows, events) && SocketsOf(events) <= Run(rows, events).closed
    ensures Run(rows, events).m == EMPTY
  {
    RunInvariant(rows, events);
    StatesBelongToSenders(rows, events);
    var h := Run(rows, events);
    assert h.conns.Keys == {};
    assert h.m.waiting.Keys == {};
    assert h.m.pairLookup.Keys == {};
    assert h.m.activeServers.Keys == {};
    assert forall p | p in h.m.pairs :: EndsAt(h.m, p, p.server);
    assert h.m.pairs == {};
  }

  // ---------- one success for each socket ----------

  /** Whose control messages have succeeded, in order. */
  function Successes(rows: Rows, events: seq<Event>): seq<Socket> {
    if events == [] then []
    else
      var front, last := events[..|events| - 1], events[|events| - 1];
      Successes(rows, front) + if Controls(Run(rows, front), last) then [last.ws] else []
  }

  predicate OnceEach(senders: seq<Socket>) {
    forall i, j | 0 <= i < j < |senders| :: senders[i] != senders[j]
  }

  lemma QuietFrame(h: Host, e: Event)
    requires e.Received? && !Controls(h, e)
    ensures Step(h, e).m == h.m
  {
  }

  lemma StepTracks(h: Host, e: Event, ws: Socket)
    requires Tracks(Step(h, e).m, ws)
    ensures Tracks(h.m, ws) || (Controls(h, e) && ws == e.ws)
  {
    if e.Gone? {
      ClosedTracks(h.m, e.ws, ConnOf(h, e.ws).username, ws);
    } else if Controls(h, e) {
      ControlTracks(h, e, ws);
    } else {
      QuietFrame(h, e);
    }
  }

  lemma ControlTracks(h: Host, e: Event, ws: Socket)
    requires Controls(h, e) && Tracks(Step(h, e).m, ws)
    ensures Tracks(h.m, ws) || ws == e.ws
  {
    match e.frame.message
    case ServerRegister(u, i, metadata, _) =>
      RegisteredTracks(h.m, e.ws, ActiveServer(u, i, e.now, Waiting, metadata), None, ws);
    case ClientConnect(u, _) => ConnectedTracks(h.m, e.ws, u, ws);
  }

  /** Every tracked socket has had a control message succeed. */
  lemma {:induction false} TrackedSucceeded(rows: Rows, events: seq<Event>, ws: Socket)
    requires Tracks(Run(rows, events).m, ws)
    ensures ws in Successes(rows, events)
  {
    if events != [] {
      var front, last := events[..|events| - 1], events[|events| - 1];
      StepTracks(Run(rows, front), last, ws);
      if Tracks(Run(rows, front).m, ws) {
        TrackedSucceeded(rows, front, ws);
      }
    }
  }

  lemma OnceEachPrefix(senders: seq<Socket>, more: seq<Socket>)
    requires OnceEach(senders + more)
    ensures OnceEach(senders) && forall ws | ws in more :: ws !in senders
  {
    var all := senders + more;
    forall i, j | 0 <= i < j < |senders| ensures senders[i] != senders[j] {
      assert all[i] == senders[i] && all[j] == senders[j];
    }
    forall i, j | 0 <= i < |senders| && 0 <= j < |more| ensures senders[i] != more[j] {
      assert all[i] == senders[i] && all[|senders| + j] == more[j];
    }
  }

  lemma UntrackedIsFree(h: Host, e: Event)
    requires Controls(h, e) ==> !Tracks(h.m, e.ws)
    ensures Free(h, e)
  {
    assert forall v | v in h.m.waiting :: h.m.waiting[v] in h.m.waiting.Values;
  }

  /**
   * The assumption about the environment in its own terms: if no socket has two control messages
   * succeed, then every one of them came from a free socket, and all of the above holds.
   */
  lemma {:induction false} OnceEachIsFree(rows: Rows, events: seq<Event>)
    requires OnceEach(Successes(rows, events))
    ensures AllFree(rows, events)
  {
    if events != [] {
      var front, last := events[..|events| - 1], events[|events| - 1];
      OnceEachPrefix(Successes(rows, front), if Controls(Run(rows, front), last) then [last.ws] else []);
      OnceEachIsFree(rows, front);
      if Tracks(Run(rows, front).m, last.ws) {
        TrackedSucceeded(rows, front, last.ws);
      }
      UntrackedIsFree(Run(rows, front), last);
    }
  }

  /** So the maps agree throughout as long as no socket has two control messages succeed. */
  lemma OnceEachKeepsMaps(rows: Rows, events: seq<Event>)
    requires Lawful(rows, events) && OnceEach(Successes(rows, events))
    ensures AlwaysConsistent(rows, events)
  {
    OnceEachIsFree(rows, events);
    MapsAgreeIffSocketsFree(rows, events);
  }

  // ---------- the assumption is needed ----------

  const NO_METADATA := Metadata(None, None, None, None)

  function Registering(ws: Socket, username: string): Event {
    Received(ws, Frame([], false, ServerRegister(username, "install", NO_METADATA, None)), 0)
  }

  /** One socket that registers two usernames in a row ends up waiting under both. */
  lemma TwoRegistrationsDisagree()
    ensures var events := [Registering(7, "alice"), Registering(7, "bob")];
            Lawful(map[], events) && !Consistent(Run(map[], events).m)
  {
    var first := [Registering(7, "alice")];
    var events := [Registering(7, "alice"), Registering(7, "bob")];
    assert first[..0] == [] && events[..1] == first;
    assert Run(map[], first).m.waiting == map["alice" := 7];
    assert Run(map[], events).m.waiting["alice"] == Run(map[], events).m.waiting["bob"];
  }
}
