/**
 * What the relay with grants keeps as long as every control message that takes effect comes from a free
 * socket: the five maps agree and every server waits under its own username. A socket is free until it
 * has had a control message take effect.
 */
module GrantMaps {
  import opened Options
  import opened Sequences
  import opened RelayMaps
  import opened Registry
  import opened Connections
  import opened Handler
  import opened GrantRelay
  import opened GrantBooks
  import GS = GrantStore

  /** A client is checked against a server registered under the username it asked for. */
  predicate PurposeNamed(p: Purpose) {
    p.ForClient? ==> p.waiting.server.username == p.username
  }

  predicate TaskNamed(t: Task) {
    match t
    case Lookup(p, _, _) => PurposeNamed(p)
    case CheckSession(p, _, _, _) => PurposeNamed(p)
    case Mark(p, _, _, _) => PurposeNamed(p)
    case Holding(p, _, _) => PurposeNamed(p)
    case Cleared(_, _, _, _, _) => true
    case Issue(_, _, _, _, _, _) => true
  }

  /** The server of a pair was registered under the username it was paired for. */
  predicate UseNamed(u: Use) {
    u.Pairing? ==> u.server.Some? && u.server.value.username == u.username
  }

  predicate Named(s: Sys) {
    && InStep(s.h.m, s.h.rows)
    && (forall k | k in s.tasks :: TaskNamed(s.tasks[k]))
    && (forall u | u in s.uses :: UseNamed(u))
  }

  // ---------- each step ----------

  lemma WaitingInfoNamed(m: Maps, u: string)
    requires Consistent(m) && WaitingInfoOf(m, u).Some?
    ensures WaitingInfoOf(m, u).value.server.username == u
  {
  }

  lemma ReceiveKeepsNames(s: Sys, ws: Socket, frame: Frame)
    requires Named(s)
    ensures Named(Receive(s, ws, frame))
  {
    if frame.message.ClientConnect? && WaitingInfoOf(s.h.m, frame.message.username).Some? {
      WaitingInfoNamed(s.h.m, frame.message.username);
    }
  }

  lemma CloseKeepsNames(s: Sys, ws: Socket)
    requires Named(s)
    ensures Named(s.(h := CloseEffect(s.h, ws)))
  {
    CloseKeepsValid(s.h.m, s.h.rows, ws, ConnOf(s.h, ws).username);
  }

  lemma RegisterKeepsNames(s: Sys, k: nat, p: Purpose, id: string, row: GS.GrantRow)
    requires Named(s) && p.ForServer? && Registers(s.h, p.username, p.installId) && MayRegister(s.h.m, p.ws, p.username)
    ensures Named(RegisterStep(s, k, p, id, row))
  {
    var auth := Some(Auth(row.userId, row.sessionId, row.deviceId));
    RegisterKeepsValid(s.h.m, s.h.rows, p.ws, ActiveServer(p.username, p.installId, s.clock, Waiting, p.metadata), auth, s.clock);
  }

  lemma PairKeepsNames(s: Sys, k: nat, ws: Socket, username: string, id: string, row: GS.GrantRow, session: string)
    requires Named(s) && (Connects(s.h, username) ==> !Tracks(s.h.m, ws))
    ensures Named(PairStep(s, k, ws, username, id, row, session))
  {
    if Connects(s.h, username) {
      ConnectKeepsValid(s.h.m, s.h.rows, ws, username, s.clock);
    }
  }

  lemma ResumeKeepsNames(s: Sys, k: nat, freshId: string, freshToken: string)
    requires Named(s) && k in s.tasks && Free(s, Advance(k, freshId, freshToken))
    ensures Named(Resume(s, k, freshId, freshToken))
  {
    var t := s.tasks[k];
    assert TaskNamed(t);
    if RegistersNow(s, Advance(k, freshId, freshToken)) {
      RegisterKeepsNames(s, k, t.purpose, t.id, t.row);
    } else if t.Cleared? {
      PairKeepsNames(s, k, t.ws, t.username, t.id, t.row, t.serverSession);
    } else {
      QuietResume(s, k, freshId, freshToken);
    }
  }

  lemma QuietResume(s: Sys, k: nat, freshId: string, freshToken: string)
    requires Named(s) && k in s.tasks && !s.tasks[k].Cleared? && !RegistersNow(s, Advance(k, freshId, freshToken))
    ensures Named(Resume(s, k, freshId, freshToken))
  {
    var n := Resume(s, k, freshId, freshToken);
    assert n.h == s.h && n.uses == s.uses;
    forall j | j in n.tasks ensures TaskNamed(n.tasks[j]) {
      if j != k { assert n.tasks[j] == s.tasks[j]; }
    }
  }

  lemma StepKeepsNames(s: Sys, e: Event)
    requires Named(s) && Free(s, e)
    ensures Named(Step(s, e))
  {
    match e
    case Received(ws, frame) => ReceiveKeepsNames(s, ws, frame);
    case Gone(ws) => CloseKeepsNames(s, ws);
    case Advance(k, freshId, freshToken) =>
      if k in s.tasks { ResumeKeepsNames(s, k, freshId, freshToken); }
    case _ =>
  }

  lemma {:induction false} RunNames(start: Sys, events: seq<Event>)
    requires IsStart(start) && AllFree(start, events)
    ensures Named(Run(start, events))
  {
    if events != [] {
      RunNames(start, events[..|events| - 1]);
      StepKeepsNames(Run(start, events[..|events| - 1]), events[|events| - 1]);
    }
  }

  // ---------- who is tracked ----------

  function SendersOf(uses: seq<Use>): set<Socket> {
    set u | u in uses :: SenderOf(u)
  }

  /** Every tracked socket has had a control message take effect. */
  ghost predicate TrackedSent(s: Sys) {
    forall ws | Tracks(s.h.m, ws) :: ws in SendersOf(s.uses)
  }

  lemma SendersExtend(uses: seq<Use>, u: Use)
    ensures SendersOf(uses + [u]) == SendersOf(uses) + {SenderOf(u)}
  {
    assert forall v | v in uses :: v in uses + [u];
    assert (uses + [u])[|uses|] == u;
  }

  lemma RegisterTracks(s: Sys, k: nat, p: Purpose, id: string, row: GS.GrantRow)
    requires TrackedSent(s) && p.ForServer?
    ensures TrackedSent(RegisterStep(s, k, p, id, row))
  {
    var n := RegisterStep(s, k, p, id, row);
    if n.uses != s.uses {
      SendersExtend(s.uses, Registration(p.ws, p.username, id, row, p.installId));
      var server := ActiveServer(p.username, p.installId, s.clock, Waiting, p.metadata);
      forall ws | Tracks(n.h.m, ws) ensures ws in SendersOf(n.uses) {
        RegisteredTracks(s.h.m, p.ws, server, Some(Auth(row.userId, row.sessionId, row.deviceId)), ws);
      }
    }
  }

  lemma PairTracks(s: Sys, k: nat, ws: Socket, username: string, id: string, row: GS.GrantRow, session: string)
    requires TrackedSent(s)
    ensures TrackedSent(PairStep(s, k, ws, username, id, row, session))
  {
    var n := PairStep(s, k, ws, username, id, row, session);
    if Connects(s.h, username) {
      SendersExtend(s.uses, PairingOf(s.h.m, ws, username, id, row, session));
      assert n.h.m == Connected(s.h.m, ws, username);
      forall v | Tracks(n.h.m, v) ensures v in SendersOf(n.uses) {
        ConnectedTracks(s.h.m, ws, username, v);
      }
    }
  }

  /** A step that is neither a close nor a use leaves the maps and the uses alone. */
  lemma QuietStep(s: Sys, e: Event)
    requires !e.Gone? && !RegistersNow(s, e) && !PairsNow(s, e)
    ensures Step(s, e).h.m == s.h.m && Step(s, e).uses == s.uses && Step(s, e).h.closed == s.h.closed
  {
  }

  lemma StepTracks(s: Sys, e: Event)
    requires TrackedSent(s)
    ensures TrackedSent(Step(s, e))
  {
    if e.Gone? {
      forall v | Tracks(Step(s, e).h.m, v) ensures v in SendersOf(s.uses) {
        if e.ws !in s.h.closed { ClosedTracks(s.h.m, e.ws, ConnOf(s.h, e.ws).username, v); }
      }
    } else if RegistersNow(s, e) {
      var t := s.tasks[e.task];
      RegisterTracks(s, e.task, t.purpose, t.id, t.row);
    } else if PairsNow(s, e) {
      var t := s.tasks[e.task];
      PairTracks(s, e.task, t.ws, t.username, t.id, t.row, t.serverSession);
    } else {
      QuietStep(s, e);
    }
  }

  lemma {:induction false} RunTracks(start: Sys, events: seq<Event>)
    requires IsStart(start)
    ensures TrackedSent(Run(start, events))
  {
    if events != [] {
      RunTracks(start, events[..|events| - 1]);
      StepTracks(Run(start, events[..|events| - 1]), events[|events| - 1]);
    }
  }

  /** A step records a use exactly when a control message takes effect, and it is its sender's. */
  lemma UsesGrow(s: Sys, e: Event)
    ensures s.uses <= Step(s, e).uses
    ensures RegistersNow(s, e) || PairsNow(s, e) ==>
              |Step(s, e).uses| == |s.uses| + 1 && SenderOf(Step(s, e).uses[|s.uses|]) == Sender(s, e)
  {
    if !e.Gone? && !RegistersNow(s, e) && !PairsNow(s, e) { QuietStep(s, e); }
  }

  lemma NewSenderIsFree(s: Sys, e: Event)
    requires TrackedSent(s) && (RegistersNow(s, e) || PairsNow(s, e) ==> Sender(s, e) !in SendersOf(s.uses))
    ensures Free(s, e)
  {
    if RegistersNow(s, e) {
      var ws := Sender(s, e);
      assert !Tracks(s.h.m, ws);
      assert forall v | v in s.h.m.waiting :: s.h.m.waiting[v] in s.h.m.waiting.Values;
    }
  }

  /**
   * The assumption about the environment in its own terms: if no socket has two control messages
   * take effect, then every one of them came from a free socket.
   */
  lemma {:induction false} OneUseEachIsFree(start: Sys, events: seq<Event>)
    requires IsStart(start) && OneUseEach(Run(start, events).uses)
    ensures AllFree(start, events)
  {
    if events != [] {
      var front, e := events[..|events| - 1], events[|events| - 1];
      var s := Run(start, front);
      UsesGrow(s, e);
      OneUseEachPrefix(s.uses, Step(s, e).uses);
      OneUseEachIsFree(start, front);
      RunTracks(start, front);
      if RegistersNow(s, e) || PairsNow(s, e) {
        LastSenderIsNew(Step(s, e).uses, s.uses);
      }
      NewSenderIsFree(s, e);
    }
  }

  lemma OneUseEachPrefix(some: seq<Use>, uses: seq<Use>)
    requires some <= uses && OneUseEach(uses)
    ensures OneUseEach(some)
  {
  }

  lemma LastSenderIsNew(uses: seq<Use>, some: seq<Use>)
    requires OneUseEach(uses) && some <= uses && |uses| == |some| + 1
    ensures SenderOf(uses[|some|]) !in SendersOf(some)
  {
    forall u | u in some ensures SenderOf(u) != SenderOf(uses[|some|]) {
      var i :| 0 <= i < |some| && some[i] == u;
      assert uses[i] == u;
    }
  }
}
