/**
 * The five maps of packages/relay/src/connections.ts as one value, what each operation makes of
 * them, and exactly when an operation keeps them in step.
 */
module RelayMaps {
  import opened Options

  /** The identity of a WebSocket object. */
  type Socket = nat

  datatype Pair = Pair(server: Socket, client: Socket)

  datatype ServerState = Waiting | Paired

  /** Compatibility metadata a server announces; the relay only stores it. */
  datatype Metadata = Metadata(
    appVersion: Option<string>, resumeProtocol: Option<int>, renderProtocol: Option<int>,
    capabilities: Option<seq<string>>)

  datatype ActiveServer = ActiveServer(
    username: string, installId: string, connectedAt: int, state: ServerState, metadata: Metadata)

  datatype Auth = Auth(userId: string, sessionId: string, deviceId: string)

  datatype Maps = Maps(
    waiting: map<string, Socket>,
    pairs: set<Pair>,
    pairLookup: map<Socket, Pair>,
    activeServers: map<Socket, ActiveServer>,
    serverAuth: map<Socket, Auth>)

  const EMPTY := Maps(map[], {}, map[], map[], map[])

  datatype Initiator = ByServer | ByClient

  datatype CloseResult =
    | WaitingServerClosed(server: Option<ActiveServer>)
    | PairDisconnected(pair: Pair, initiator: Initiator, server: Option<ActiveServer>)
    | NothingClosed

  function Get<K, V>(m: map<K, V>, k: K): Option<V> {
    if k in m then Some(m[k]) else None
  }

  // ---------- what the operations make of the maps ----------

  /** `registerServer` once the registry has accepted the claim. */
  function Registered(m: Maps, ws: Socket, server: ActiveServer, auth: Option<Auth>): Maps {
    var replaced := if server.username in m.waiting then {m.waiting[server.username]} else {};
    m.(waiting := m.waiting[server.username := ws],
       activeServers := (m.activeServers - replaced)[ws := server],
       serverAuth := if auth.Some? then (m.serverAuth - replaced)[ws := auth.value]
                     else m.serverAuth - replaced - {ws})
  }

  /** `connectClient` when a server waits under `username`. */
  function Connected(m: Maps, ws: Socket, username: string): Maps
    requires username in m.waiting
  {
    var server := m.waiting[username];
    var pair := Pair(server, ws);
    m.(waiting := m.waiting - {username},
       pairs := m.pairs + {pair},
       pairLookup := m.pairLookup[server := pair][ws := pair],
       activeServers := if server in m.activeServers
                        then m.activeServers[server := m.activeServers[server].(state := Paired)]
                        else m.activeServers)
  }

  /** True when `handleClose` takes its first branch; an absent or empty username never does. */
  predicate ClosesWaiting(m: Maps, ws: Socket, username: Option<string>) {
    && username.Some? && username.value != ""
    && username.value in m.waiting && m.waiting[username.value] == ws
  }

  function Closed(m: Maps, ws: Socket, username: Option<string>): Maps {
    if ClosesWaiting(m, ws, username) then
      m.(waiting := m.waiting - {username.value},
         activeServers := m.activeServers - {ws},
         serverAuth := m.serverAuth - {ws})
    else if ws in m.pairLookup then
      var pair := m.pairLookup[ws];
      m.(pairs := m.pairs - {pair},
         pairLookup := m.pairLookup - {pair.server, pair.client},
         activeServers := m.activeServers - {pair.server},
         serverAuth := m.serverAuth - {pair.server})
    else m
  }

  function ClosedResult(m: Maps, ws: Socket, username: Option<string>): CloseResult {
    if ClosesWaiting(m, ws, username) then WaitingServerClosed(Get(m.activeServers, ws))
    else if ws in m.pairLookup then
      var pair := m.pairLookup[ws];
      PairDisconnected(pair, if pair.server == ws then ByServer else ByClient, Get(m.activeServers, pair.server))
    else NothingClosed
  }

  /** The other end that `forward` sends to. */
  function Partner(m: Maps, ws: Socket): Socket
    requires ws in m.pairLookup
  {
    var pair := m.pairLookup[ws];
    if pair.server == ws then pair.client else pair.server
  }

  // ---------- agreement of the five maps ----------

  predicate WaitingAgrees(m: Maps) {
    && (forall u, v | u in m.waiting && v in m.waiting && m.waiting[u] == m.waiting[v] :: u == v)
    && (forall u | u in m.waiting ::
          && m.waiting[u] !in m.pairLookup
          && m.waiting[u] in m.activeServers
          && m.activeServers[m.waiting[u]].username == u
          && m.activeServers[m.waiting[u]].state == Waiting)
  }

  predicate EndsAt(m: Maps, p: Pair, ws: Socket) {
    ws in m.pairLookup && m.pairLookup[ws] == p
  }

  predicate PairsAgree(m: Maps) {
    && (forall p | p in m.pairs ::
          && p.server != p.client && EndsAt(m, p, p.server) && EndsAt(m, p, p.client)
          && p.server in m.activeServers && m.activeServers[p.server].state == Paired)
    && (forall ws | ws in m.pairLookup ::
          m.pairLookup[ws] in m.pairs && (ws == m.pairLookup[ws].server || ws == m.pairLookup[ws].client))
  }

  predicate ServersAgree(m: Maps) {
    && (forall ws | ws in m.activeServers ::
          match m.activeServers[ws].state
          case Waiting => m.activeServers[ws].username in m.waiting && m.waiting[m.activeServers[ws].username] == ws
          case Paired => ws in m.pairLookup && m.pairLookup[ws].server == ws)
    && m.serverAuth.Keys <= m.activeServers.Keys
  }

  /** The five maps agree with one another. */
  predicate Consistent(m: Maps) {
    WaitingAgrees(m) && PairsAgree(m) && ServersAgree(m)
  }

  /** The sockets the maps mention. */
  predicate Tracks(m: Maps, ws: Socket) {
    ws in m.waiting.Values || ws in m.pairLookup
  }

  // ---------- exactly when an operation keeps them in agreement ----------

  /** The socket is not paired, and waits, if at all, under this very username. */
  predicate MayRegister(m: Maps, ws: Socket, username: string) {
    ws !in m.pairLookup && forall v | v in m.waiting && m.waiting[v] == ws :: v == username
  }

  /** A registration keeps the maps in agreement if and only if the socket was free to register. */
  lemma RegisteredConsistentIff(m: Maps, ws: Socket, server: ActiveServer, auth: Option<Auth>)
    requires Consistent(m) && server.state == Waiting
    ensures Consistent(Registered(m, ws, server, auth)) <==> MayRegister(m, ws, server.username)
  {
    var n := Registered(m, ws, server, auth);
    assert n.waiting[server.username] == ws;
    if MayRegister(m, ws, server.username) {
      assert WaitingAgrees(n);
      assert PairsAgree(n);
      assert ServersAgree(n);
    } else if ws !in m.pairLookup {
      var v :| v in m.waiting && m.waiting[v] == ws && v != server.username;
      assert n.waiting[v] == ws;
    }
  }

  /** Pairing a client keeps the maps in agreement if and only if the client was untracked. */
  lemma ConnectedConsistentIff(m: Maps, ws: Socket, username: string)
    requires Consistent(m) && username in m.waiting
    ensures Consistent(Connected(m, ws, username)) <==> !Tracks(m, ws)
  {
    var server := m.waiting[username];
    var pair := Pair(server, ws);
    var n := Connected(m, ws, username);
    if !Tracks(m, ws) {
      assert server in m.waiting.Values;
      assert WaitingAgrees(n);
      assert PairsAgree(n);
      assert ServersAgree(n);
    } else if ws in m.pairLookup {
      var p := m.pairLookup[ws];
      assert p in n.pairs && n.pairLookup[ws] == pair;
      assert p != pair;
    } else {
      var v :| v in m.waiting && m.waiting[v] == ws;
      if v == username {
        assert pair in n.pairs && pair.server == pair.client;
      } else {
        assert v in n.waiting && n.waiting[v] in n.pairLookup;
      }
    }
  }

  /** A close always keeps them in agreement, whatever username it is reported with. */
  lemma ClosedConsistent(m: Maps, ws: Socket, username: Option<string>)
    requires Consistent(m)
    ensures Consistent(Closed(m, ws, username))
  {
    var n := Closed(m, ws, username);
    if !ClosesWaiting(m, ws, username) && ws in m.pairLookup {
      var pair := m.pairLookup[ws];
      forall p | p in m.pairs && p != pair
        ensures {p.server, p.client} !! {pair.server, pair.client}
      {
        assert EndsAt(m, p, p.server) && EndsAt(m, p, p.client);
        assert EndsAt(m, pair, pair.server) && EndsAt(m, pair, pair.client);
      }
    }
    assert WaitingAgrees(n);
    assert PairsAgree(n);
    assert ServersAgree(n);
  }

  // ---------- consequences of agreement ----------

  /** Pair lookup is an involution without fixed points, and it never leaves the pair. */
  lemma PartnerInvolution(m: Maps, ws: Socket)
    requires Consistent(m) && ws in m.pairLookup
    ensures Partner(m, ws) in m.pairLookup && Partner(m, ws) != ws && Partner(m, Partner(m, ws)) == ws
    ensures m.pairLookup[Partner(m, ws)] == m.pairLookup[ws]
  {
    var p := m.pairLookup[ws];
    assert p in m.pairs && EndsAt(m, p, p.server) && EndsAt(m, p, p.client);
  }

  function Servers(pairs: set<Pair>): set<Socket> {
    set p | p in pairs :: p.server
  }

  function Clients(pairs: set<Pair>): set<Socket> {
    set p | p in pairs :: p.client
  }

  lemma {:induction false} DistinctServers(pairs: set<Pair>)
    requires forall p, q | p in pairs && q in pairs && p.server == q.server :: p == q
    ensures |Servers(pairs)| == |pairs|
    decreases |pairs|
  {
    if pairs == {} {
      assert Servers(pairs) == {};
    } else {
      var p :| p in pairs;
      var rest := pairs - {p};
      DistinctServers(rest);
      assert Servers(pairs) == Servers(rest) + {p.server};
      assert p.server !in Servers(rest);
    }
  }

  lemma {:induction false} DistinctClients(pairs: set<Pair>)
    requires forall p, q | p in pairs && q in pairs && p.client == q.client :: p == q
    ensures |Clients(pairs)| == |pairs|
    decreases |pairs|
  {
    if pairs == {} {
      assert Clients(pairs) == {};
    } else {
      var p :| p in pairs;
      var rest := pairs - {p};
      DistinctClients(rest);
      assert Clients(pairs) == Clients(rest) + {p.client};
      assert p.client !in Clients(rest);
    }
  }

  lemma {:induction false} InjectiveValues(w: map<string, Socket>)
    requires forall u, v | u in w && v in w && w[u] == w[v] :: u == v
    ensures |w.Values| == |w|
    decreases |w|
  {
    if w == map[] {
      assert w.Values == {};
    } else {
      var u :| u in w;
      var rest := w - {u};
      InjectiveValues(rest);
      assert rest.Keys == w.Keys - {u};
      forall x ensures x in w.Values <==> x in rest.Values + {w[u]} {
        if x in w.Values {
          var v :| v in w && w[v] == x;
          if v != u { assert rest[v] == x; }
        }
      }
      assert w.Values == rest.Values + {w[u]};
    }
  }

  /** Two pairs that share a socket are the same pair, and no socket is both a server and a client. */
  lemma PairsAreSeparate(m: Maps, p: Pair, q: Pair)
    requires Consistent(m) && p in m.pairs && q in m.pairs
    ensures p.server != q.client
    ensures p.server == q.server || p.client == q.client ==> p == q
  {
    assert EndsAt(m, p, p.server) && EndsAt(m, p, p.client);
    assert EndsAt(m, q, q.server) && EndsAt(m, q, q.client);
  }

  /** The lookup holds exactly the ends of the pairs, so it is twice as large as the pair set. */
  lemma LookupHoldsPairEnds(m: Maps)
    requires Consistent(m)
    ensures m.pairLookup.Keys == Servers(m.pairs) + Clients(m.pairs)
    ensures |m.pairLookup| == 2 * |m.pairs|
  {
    forall p, q | p in m.pairs && q in m.pairs
      ensures p.server != q.client
      ensures p.server == q.server || p.client == q.client ==> p == q
    {
      PairsAreSeparate(m, p, q);
    }
    DistinctServers(m.pairs);
    DistinctClients(m.pairs);
    assert Servers(m.pairs) !! Clients(m.pairs);
    assert |Servers(m.pairs) + Clients(m.pairs)| == |Servers(m.pairs)| + |Clients(m.pairs)|;
    forall ws ensures ws in m.pairLookup.Keys <==> ws in Servers(m.pairs) + Clients(m.pairs) {
      if ws in m.pairLookup { assert m.pairLookup[ws] in m.pairs; }
      if ws in Servers(m.pairs) {
        var p :| p in m.pairs && p.server == ws;
        assert EndsAt(m, p, ws);
      }
      if ws in Clients(m.pairs) {
        var p :| p in m.pairs && p.client == ws;
        assert EndsAt(m, p, ws);
      }
    }
    assert m.pairLookup.Keys == Servers(m.pairs) + Clients(m.pairs);
    assert |m.pairLookup| == |m.pairLookup.Keys|;
  }

  /** `activeServers` holds exactly the waiting sockets and the server ends of the pairs. */
  lemma ActiveServersAreWaitingOrPaired(m: Maps)
    requires Consistent(m)
    ensures m.activeServers.Keys == m.waiting.Values + Servers(m.pairs)
    ensures m.waiting.Values !! Servers(m.pairs) + Clients(m.pairs)
  {
    forall ws | ws in m.activeServers ensures ws in m.waiting.Values + Servers(m.pairs) {
      if m.activeServers[ws].state == Paired {
        assert m.pairLookup[ws] in m.pairs;
      }
    }
    forall p | p in m.pairs
      ensures p.server in m.activeServers && p.server !in m.waiting.Values && p.client !in m.waiting.Values
    {
      assert EndsAt(m, p, p.server) && EndsAt(m, p, p.client);
    }
  }

  /** So their number is the number of waiting usernames plus the number of pairs. */
  lemma ActiveServerCount(m: Maps)
    requires Consistent(m)
    ensures |m.activeServers| == |m.waiting| + |m.pairs|
  {
    ActiveServersAreWaitingOrPaired(m);
    InjectiveValues(m.waiting);
    forall p, q | p in m.pairs && q in m.pairs && p.server == q.server ensures p == q {
      PairsAreSeparate(m, p, q);
    }
    DistinctServers(m.pairs);
    calc {
      |m.activeServers|;
      |m.activeServers.Keys|;
      |m.waiting.Values + Servers(m.pairs)|;
      |m.waiting.Values| + |Servers(m.pairs)|;
    }
  }

  /** A reported pair was live, its server is described, and the initiator is told apart rightly. */
  lemma ClosedReportsThePair(m: Maps, ws: Socket, username: Option<string>)
    requires Consistent(m)
    ensures var result := ClosedResult(m, ws, username);
            && (result.PairDisconnected? <==> ws in m.pairLookup)
            && (result.PairDisconnected? ==>
                  && result.pair in m.pairs && (ws == result.pair.server || ws == result.pair.client)
                  && result.server.Some? && result.server.value.state == Paired
                  && result.initiator == if ws in m.activeServers then ByServer else ByClient)
  {
    if ws in m.pairLookup {
      var p := m.pairLookup[ws];
      assert p in m.pairs && EndsAt(m, p, p.server) && EndsAt(m, p, p.client);
    }
  }

  // ---------- how sockets come to be tracked ----------

  lemma RegisteredTracks(m: Maps, ws: Socket, server: ActiveServer, auth: Option<Auth>, s: Socket)
    requires Tracks(Registered(m, ws, server, auth), s)
    ensures Tracks(m, s) || s == ws
  {
    var n := Registered(m, ws, server, auth);
    if s in n.waiting.Values {
      var u :| u in n.waiting && n.waiting[u] == s;
      if u != server.username { assert m.waiting[u] in m.waiting.Values; }
    }
  }

  lemma ConnectedTracks(m: Maps, ws: Socket, username: string, s: Socket)
    requires username in m.waiting && Tracks(Connected(m, ws, username), s)
    ensures Tracks(m, s) || s == ws
  {
    assert m.waiting[username] in m.waiting.Values;
    var n := Connected(m, ws, username);
    if s in n.waiting.Values {
      var u :| u in n.waiting && n.waiting[u] == s;
      assert m.waiting[u] in m.waiting.Values;
    }
  }

  lemma ClosedTracks(m: Maps, ws: Socket, username: Option<string>, s: Socket)
    requires Tracks(Closed(m, ws, username), s)
    ensures Tracks(m, s)
  {
    var n := Closed(m, ws, username);
    if s in n.waiting.Values {
      var u :| u in n.waiting && n.waiting[u] == s;
      assert m.waiting[u] in m.waiting.Values;
    }
  }

  // ---------- what a close leaves alone ----------

  /** A socket that the maps no longer track can close, under any username, without any effect. */
  lemma UntrackedCloseIsSilent(m: Maps, ws: Socket, username: Option<string>)
    requires !Tracks(m, ws)
    ensures Closed(m, ws, username) == m && ClosedResult(m, ws, username) == NothingClosed
  {
  }

  /** Replacing a waiting server forgets it, so its late close changes nothing at all. */
  lemma ReplacedServerClosesSilently(m: Maps, ws: Socket, server: ActiveServer, auth: Option<Auth>, username: Option<string>)
    requires Consistent(m) && MayRegister(m, ws, server.username)
    requires server.username in m.waiting && m.waiting[server.username] != ws
    ensures var replaced := m.waiting[server.username];
            var n := Registered(m, ws, server, auth);
            && n.waiting[server.username] == ws
            && Closed(n, replaced, username) == n
            && ClosedResult(n, replaced, username) == NothingClosed
  {
    var replaced := m.waiting[server.username];
    var n := Registered(m, ws, server, auth);
    forall v | v in n.waiting ensures n.waiting[v] != replaced {}
    UntrackedCloseIsSilent(n, replaced, username);
  }

  /** When one end of a pair has closed, the close of the other end changes nothing at all. */
  lemma SecondEndClosesSilently(m: Maps, ws: Socket, first: Option<string>, second: Option<string>)
    requires Consistent(m) && ws in m.pairLookup
    ensures var n := Closed(m, ws, first);
            && ClosedResult(m, ws, first).PairDisconnected?
            && Closed(n, Partner(m, ws), second) == n
            && ClosedResult(n, Partner(m, ws), second) == NothingClosed
  {
    var n := Closed(m, ws, first);
    PartnerInvolution(m, ws);
    UntrackedCloseIsSilent(n, Partner(m, ws), second);
  }

  /** A close touches nothing but the closing socket, its partner and its own username. */
  lemma CloseIsLocal(m: Maps, ws: Socket, username: Option<string>)
    requires Consistent(m)
    ensures var n := Closed(m, ws, username);
            && (forall u | u in m.waiting && m.waiting[u] != ws :: u in n.waiting && n.waiting[u] == m.waiting[u])
            && (forall p | p in m.pairs && ws != p.server && ws != p.client ::
                  p in n.pairs && EndsAt(n, p, p.server) && EndsAt(n, p, p.client))
            && (forall s | s in m.activeServers && s != ws && (ws in m.pairLookup ==> s != Partner(m, ws)) ::
                  && s in n.activeServers && n.activeServers[s] == m.activeServers[s]
                  && Get(n.serverAuth, s) == Get(m.serverAuth, s))
  {
    if ws in m.pairLookup {
      var mine := m.pairLookup[ws];
      PartnerInvolution(m, ws);
      assert EndsAt(m, mine, mine.server) && EndsAt(m, mine, mine.client);
    }
    forall p | p in m.pairs ensures EndsAt(m, p, p.server) && EndsAt(m, p, p.client) {}
  }

  /**
   * A registration reaches its username, its socket and the server it replaces, and nothing else: that server is gone with
   * its account, and what the socket was is overwritten.
   */
  lemma RegisteredIsLocal(m: Maps, ws: Socket, server: ActiveServer, auth: Option<Auth>)
    ensures var n := Registered(m, ws, server, auth);
            && Get(n.waiting, server.username) == Some(ws) && Get(n.activeServers, ws) == Some(server) && Get(n.serverAuth, ws) == auth
            && n.pairs == m.pairs && n.pairLookup == m.pairLookup
            && (forall u | u != server.username :: Get(n.waiting, u) == Get(m.waiting, u))
            && (forall s | s != ws && Get(m.waiting, server.username) != Some(s) ::
                  Get(n.activeServers, s) == Get(m.activeServers, s) && Get(n.serverAuth, s) == Get(m.serverAuth, s))
            && (forall s | s != ws && Get(m.waiting, server.username) == Some(s) ::
                  Get(n.activeServers, s) == None && Get(n.serverAuth, s) == None)
  {
  }

  /** A pairing takes the server off its username, makes one pair of both sockets, and touches nothing else. */
  lemma ConnectedIsLocal(m: Maps, ws: Socket, username: string)
    requires username in m.waiting
    ensures var n, server := Connected(m, ws, username), m.waiting[username];
            && Get(n.waiting, username) == None && (forall u | u != username :: Get(n.waiting, u) == Get(m.waiting, u))
            && Pair(server, ws) in n.pairs && (forall p | p != Pair(server, ws) :: p in n.pairs <==> p in m.pairs)
            && Get(n.pairLookup, server) == Some(Pair(server, ws)) && Get(n.pairLookup, ws) == Some(Pair(server, ws))
            && (forall s | s != server && s != ws :: Get(n.pairLookup, s) == Get(m.pairLookup, s))
            && n.serverAuth == m.serverAuth
            && (forall s | s != server :: Get(n.activeServers, s) == Get(m.activeServers, s))
            && (match Get(m.activeServers, server)
                case None => Get(n.activeServers, server) == None
                case Some(a) => Get(n.activeServers, server)
                                == Some(ActiveServer(a.username, a.installId, a.connectedAt, Paired, a.metadata)))
  {
  }

  /**
   * What a close reports, from the maps alone: a waiting server under the username it is reported with, else the pair it
   * is an end of, with the description of the pair's server and the end that closed, else nothing.
   */
  lemma ClosedReports(m: Maps, ws: Socket, username: Option<string>)
    ensures var waits := username.Some? && username.value != "" && Get(m.waiting, username.value) == Some(ws);
            && (waits ==> ClosedResult(m, ws, username) == WaitingServerClosed(Get(m.activeServers, ws)))
            && (!waits && ws in m.pairLookup ==>
                  ClosedResult(m, ws, username)
                  == PairDisconnected(m.pairLookup[ws], if m.pairLookup[ws].server == ws then ByServer else ByClient,
                                      Get(m.activeServers, m.pairLookup[ws].server)))
            && (!waits && ws !in m.pairLookup ==> ClosedResult(m, ws, username) == NothingClosed && Closed(m, ws, username) == m)
  {
  }
}
