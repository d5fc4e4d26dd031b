/**
 * When the relay with grants keeps to open sockets. A socket can close while its handler is suspended,
 * so what takes effect afterwards can track a socket whose close event is past.
 */
module GrantSockets {
  import opened Options
  import opened RelayMaps
  import opened Registry
  import opened Connections
  import opened Handler
  import opened GrantRelay
  import opened GrantBooks
  import opened GrantMaps
  import GS = GrantStore

  ghost predicate TrackedOpen(s: Sys) {
    forall ws | Tracks(s.h.m, ws) :: ws !in s.h.closed
  }

  /** Every tracked socket is open after each step. */
  ghost predicate AlwaysOpen(start: Sys, events: seq<Event>) {
    TrackedOpen(Run(start, events)) && (events == [] || AlwaysOpen(start, events[..|events| - 1]))
  }

  /** A control message that takes effect does so before its own socket has closed. */
  predicate SenderOpen(s: Sys, e: Event) {
    RegistersNow(s, e) || PairsNow(s, e) ==> Sender(s, e) !in s.h.closed
  }

  ghost predicate AllSendersOpen(start: Sys, events: seq<Event>) {
    events == [] || (AllSendersOpen(start, events[..|events| - 1]) && SenderOpen(Run(start, events[..|events| - 1]), events[|events| - 1]))
  }

  /** The state of an open waiting socket carries the username it waits under. */
  predicate WaitingStates(h: Host) {
    forall u | u in h.m.waiting && h.m.waiting[u] !in h.closed ::
      h.m.waiting[u] in h.conns && h.conns[h.m.waiting[u]].username == Some(u)
  }

  // ---------- states of waiting sockets ----------

  lemma RegisterKeepsStates(h: Host, ws: Socket, u: string, i: string, metadata: Metadata, auth: Option<Auth>, now: int)
    requires WaitingStates(h) && (Registers(h, u, i) ==> MayRegister(h.m, ws, u))
    ensures WaitingStates(RegisterEffect(h, ws, u, i, metadata, auth, now))
  {
  }

  lemma ConnectKeepsStates(h: Host, ws: Socket, u: string, now: int)
    requires WaitingStates(h) && WaitingAgrees(h.m) && (Connects(h, u) ==> !Tracks(h.m, ws))
    ensures WaitingStates(ConnectEffect(h, ws, u, now))
  {
    assert forall v | v in h.m.waiting :: h.m.waiting[v] in h.m.waiting.Values;
  }

  lemma CloseKeepsStates(h: Host, ws: Socket)
    requires WaitingStates(h)
    ensures WaitingStates(CloseEffect(h, ws))
  {
  }

  lemma OpenKeepsStates(h: Host, ws: Socket)
    requires WaitingStates(h)
    ensures WaitingStates(WithConn(h, ws, ConnOf(h, ws)))
  {
  }

  lemma ReceiveKeepsStates(s: Sys, ws: Socket, frame: Frame)
    requires WaitingStates(s.h)
    ensures WaitingStates(Receive(s, ws, frame).h)
  {
    OpenKeepsStates(s.h, ws);
  }

  lemma ResumeKeepsStates(s: Sys, k: nat, freshId: string, freshToken: string)
    requires k in s.tasks && Named(s) && WaitingStates(s.h) && Free(s, Advance(k, freshId, freshToken))
    ensures WaitingStates(Resume(s, k, freshId, freshToken).h)
  {
    var t := s.tasks[k];
    if RegistersNow(s, Advance(k, freshId, freshToken)) {
      var p := t.purpose;
      RegisterKeepsStates(s.h, p.ws, p.username, p.installId, p.metadata, Some(Auth(t.row.userId, t.row.sessionId, t.row.deviceId)), s.clock);
    } else if t.Cleared? {
      ConnectKeepsStates(s.h, t.ws, t.username, s.clock);
    }
  }

  lemma StepKeepsStates(s: Sys, e: Event)
    requires Named(s) && WaitingStates(s.h) && Free(s, e)
    ensures WaitingStates(Step(s, e).h)
  {
    match e
    case Received(ws, frame) => ReceiveKeepsStates(s, ws, frame);
    case Gone(ws) => CloseKeepsStates(s.h, ws);
    case Advance(k, freshId, freshToken) =>
      if k in s.tasks { ResumeKeepsStates(s, k, freshId, freshToken); }
    case _ =>
  }

  lemma {:induction false} RunStates(start: Sys, events: seq<Event>)
    requires IsStart(start) && AllFree(start, events)
    ensures WaitingStates(Run(start, events).h)
  {
    if events != [] {
      RunStates(start, events[..|events| - 1]);
      RunNames(start, events[..|events| - 1]);
      StepKeepsStates(Run(start, events[..|events| - 1]), events[|events| - 1]);
    }
  }

  // ---------- each step ----------

  /** A socket that closes is tracked no more. */
  lemma CloseUntracks(h: Host, ws: Socket)
    requires InStep(h.m, h.rows) && WaitingStates(h) && ws !in h.closed
    ensures !Tracks(CloseEffect(h, ws).m, ws)
  {
    var n := CloseEffect(h, ws);
    forall u | u in n.m.waiting ensures n.m.waiting[u] != ws {
      WaitingUsernameGiven(h.m, h.rows, u);
    }
    if ws in h.m.pairLookup {
      assert ws == h.m.pairLookup[ws].server || ws == h.m.pairLookup[ws].client;
    }
  }

  lemma CloseStaysOpen(s: Sys, ws: Socket)
    requires Named(s) && WaitingStates(s.h) && TrackedOpen(s)
    ensures TrackedOpen(Step(s, Gone(ws)))
  {
    if ws !in s.h.closed {
      CloseUntracks(s.h, ws);
      forall v | Tracks(Step(s, Gone(ws)).h.m, v) ensures v !in s.h.closed + {ws} {
        ClosedTracks(s.h.m, ws, ConnOf(s.h, ws).username, v);
      }
    }
  }

  lemma RegistrationStaysOpenIff(s: Sys, e: Event)
    requires RegistersNow(s, e) && TrackedOpen(s)
    ensures TrackedOpen(Step(s, e)) <==> Sender(s, e) !in s.h.closed
  {
    var t := s.tasks[e.task];
    var p := t.purpose;
    var server, auth := ActiveServer(p.username, p.installId, s.clock, Waiting, p.metadata), Auth(t.row.userId, t.row.sessionId, t.row.deviceId);
    RegistrationTracks(s, e, server, auth);
    forall v | Tracks(Step(s, e).h.m, v) ensures Tracks(s.h.m, v) || v == p.ws {
      RegisteredTracks(s.h.m, p.ws, server, Some(auth), v);
    }
  }

  lemma RegistrationTracks(s: Sys, e: Event, server: ActiveServer, auth: Auth)
    requires RegistersNow(s, e)
    requires var t := s.tasks[e.task];
             && server == ActiveServer(t.purpose.username, t.purpose.installId, s.clock, Waiting, t.purpose.metadata)
             && auth == Auth(t.row.userId, t.row.sessionId, t.row.deviceId)
    ensures var n := Step(s, e);
            && n.h.m == Registered(s.h.m, Sender(s, e), server, Some(auth)) && n.h.closed == s.h.closed
            && Tracks(n.h.m, Sender(s, e))
  {
    assert Registered(s.h.m, Sender(s, e), server, Some(auth)).waiting[server.username] == Sender(s, e);
  }

  lemma PairingStaysOpenIff(s: Sys, e: Event)
    requires PairsNow(s, e) && TrackedOpen(s)
    ensures TrackedOpen(Step(s, e)) <==> Sender(s, e) !in s.h.closed
  {
    var t := s.tasks[e.task];
    PairingTracks(s, e);
    forall v | Tracks(Step(s, e).h.m, v) ensures Tracks(s.h.m, v) || v == t.ws {
      ConnectedTracks(s.h.m, t.ws, t.username, v);
    }
  }

  lemma PairingTracks(s: Sys, e: Event)
    requires PairsNow(s, e)
    ensures var t, n := s.tasks[e.task], Step(s, e);
            && n.h.m == Connected(s.h.m, t.ws, t.username) && n.h.closed == s.h.closed && Tracks(n.h.m, t.ws)
  {
  }

  lemma StepStaysOpenIff(s: Sys, e: Event)
    requires Named(s) && WaitingStates(s.h) && TrackedOpen(s)
    ensures TrackedOpen(Step(s, e)) <==> SenderOpen(s, e)
  {
    if e.Gone? {
      CloseStaysOpen(s, e.ws);
    } else if RegistersNow(s, e) {
      RegistrationStaysOpenIff(s, e);
    } else if PairsNow(s, e) {
      PairingStaysOpenIff(s, e);
    } else {
      QuietStep(s, e);
    }
  }

  /**
   * Exactly when every tracked socket is open throughout a run on which control messages come from free
   * sockets: when each registration and each pairing took effect before its own socket had closed.
   */
  lemma {:induction false} TrackedOpenIffSendersOpen(start: Sys, events: seq<Event>)
    requires IsStart(start) && AllFree(start, events)
    ensures AlwaysOpen(start, events) <==> AllSendersOpen(start, events)
  {
    if events != [] {
      var front, last := events[..|events| - 1], events[|events| - 1];
      TrackedOpenIffSendersOpen(start, front);
      if AlwaysOpen(start, front) {
        RunNames(start, front);
        RunStates(start, front);
        StepStaysOpenIff(Run(start, front), last);
      }
    }
  }

  /** So it is as long as no socket has two control messages take effect. */
  lemma OneUseEachKeepsOpenIff(start: Sys, events: seq<Event>)
    requires IsStart(start) && OneUseEach(Run(start, events).uses)
    ensures AlwaysOpen(start, events) <==> AllSendersOpen(start, events)
  {
    OneUseEachIsFree(start, events);
    TrackedOpenIffSendersOpen(start, events);
  }
}
