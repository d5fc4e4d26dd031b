/**
 * What packages/relay/src/ws-handler.ts does to the relay in one uninterrupted stretch: the effects
 * of a registration, a client connection, a forwarded frame and a close.
 */
module Handler {
  import opened Options
  import opened RelayMaps
  import opened Registry
  import opened Connections

  /** The part of `ConnectionState` that routing depends on; the timers are in module Keepalive. */
  datatype Conn = Conn(username: Option<string>, isServer: bool, paired: bool)

  /** A text frame after JSON parsing and the type guards; `Other` covers everything they refuse. */
  datatype Message =
    | ServerRegister(username: string, installId: string, metadata: Metadata, grant: Option<string>)
    | ClientConnect(username: string, grant: Option<string>)
    | Other

  datatype Frame = Frame(data: Payload, isBinary: bool, message: Message)

  datatype Delivery = Delivery(source: Socket, target: Socket, data: Payload, isBinary: bool)

  /**
   * The relay as the handler sees it. `closed` holds the sockets whose close event has been
   * delivered; `formed`, `reported` and `sent` are what telemetry and the wire have seen so far.
   */
  datatype Host = Host(
    rows: Rows, m: Maps, conns: map<Socket, Conn>, closed: set<Socket>,
    formed: seq<Pair>, reported: seq<Pair>, sent: seq<Delivery>)

  /** A relay that has just been started on the usernames its registry holds. */
  function Started(rows: Rows): Host {
    Host(rows, EMPTY, map[], {}, [], [], [])
  }

  const FRESH := Conn(None, false, false)

  function ConnOf(h: Host, ws: Socket): Conn {
    if ws in h.conns then h.conns[ws] else FRESH
  }

  /**
   * Setting fields of a socket's state. Once the socket has closed, its state has been dropped
   * from the table and nothing reads what a late continuation writes to it.
   */
  function WithConn(h: Host, ws: Socket, conn: Conn): Host {
    if ws in h.closed then h else h.(conns := h.conns[ws := conn])
  }

  predicate Registers(h: Host, username: string, installId: string) {
    MayOwn(h.rows, username, installId)
  }

  predicate Connects(h: Host, username: string) {
    username in h.rows && username in h.m.waiting
  }

  function RegisterEffect(h: Host, ws: Socket, username: string, installId: string, metadata: Metadata,
                          auth: Option<Auth>, now: int): Host
  {
    if !Registers(h, username, installId) then h
    else
      var server := ActiveServer(username, installId, now, Waiting, metadata);
      WithConn(h.(rows := Claimed(h.rows, username, installId, now), m := Registered(h.m, ws, server, auth)),
               ws, ConnOf(h, ws).(username := Some(username), isServer := true))
  }

  function ConnectEffect(h: Host, ws: Socket, username: string, now: int): Host {
    if !Connects(h, username) then h
    else
      var server := h.m.waiting[username];
      var h1 := WithConn(h.(rows := Touched(h.rows, username, now), m := Connected(h.m, ws, username),
                            formed := h.formed + [Pair(server, ws)]),
                         ws, Conn(Some(username), false, true));
      WithConn(h1, server, ConnOf(h1, server).(paired := true))
  }

  function ForwardEffect(h: Host, ws: Socket, data: Payload, isBinary: bool): Host {
    if ws !in h.m.pairLookup then h
    else h.(sent := h.sent + [Delivery(ws, Partner(h.m, ws), data, isBinary)])
  }

  /** A pair is reported as disconnected only for a socket whose state carries a username. */
  function CloseEffect(h: Host, ws: Socket): Host {
    var username := ConnOf(h, ws).username;
    var result := ClosedResult(h.m, ws, username);
    h.(m := Closed(h.m, ws, username),
       conns := h.conns - {ws},
       closed := h.closed + {ws},
       reported := if result.PairDisconnected? && username.Some? && username.value != ""
                   then h.reported + [result.pair] else h.reported)
  }

  // ---------- bookkeeping that every stretch keeps ----------

  predicate EndOf(p: Pair, ws: Socket) {
    ws == p.server || ws == p.client
  }

  /** A socket that has been part of a pair: it has closed, or its state says it is paired. */
  predicate Spent(h: Host, ws: Socket) {
    ws in h.closed || (ws in h.conns && h.conns[ws].paired)
  }

  /** No socket is in two formed pairs. */
  predicate FormedApart(formed: seq<Pair>) {
    && (forall p | p in formed :: p.server != p.client)
    && (forall i, j | 0 <= i < j < |formed| :: !EndOf(formed[i], formed[j].server) && !EndOf(formed[i], formed[j].client))
  }
}
