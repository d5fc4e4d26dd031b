/**
 * What the checks of a grant achieve across awaits: a session that has ended yields no more consumed grants and
 * no more pairs, grants are issued as the control plane promises, and without interference a grant is
 * consumed exactly when `consumeRelayGrant` says so.
 */
module GrantLaws {
  import opened Options
  import opened Text
  import opened RelayMaps
  import opened Registry
  import opened Connections
  import opened Handler
  import opened GrantRelay
  import opened GrantBooks
  import opened GrantMaps
  import opened GrantResults
  import opened GrantScenarios
  import opened GS = GrantStore

  // ---------- sessions that have ended ----------

  /** The session was revoked or has expired. */
  predicate HasEnded(s: Sys, sessionId: string) {
    sessionId in s.db.sessions && (s.db.sessions[sessionId].revokedAt.Some? || s.db.sessions[sessionId].expiresAt <= s.clock)
  }

  /** Some suspended handler has passed the session check for a grant of this session. */
  predicate SomePassed(s: Sys, sessionId: string) {
    exists k | k in s.tasks ::
      (s.tasks[k].Mark? || s.tasks[k].Holding? || s.tasks[k].Cleared?) && s.tasks[k].row.sessionId == sessionId
  }

  /** Some client has been cleared for a server of this session. */
  predicate SomeCleared(s: Sys, sessionId: string) {
    exists k | k in s.tasks :: s.tasks[k].Cleared? && s.tasks[k].serverSession == sessionId
  }

  lemma EndIsFinal(s: Sys, e: Event, sessionId: string)
    requires HasEnded(s, sessionId)
    ensures HasEnded(Step(s, e), sessionId)
  {
    if e.Received? { ReceiveWritesNothing(s, e.ws, e.frame); }
  }

  /** Which handlers a step leaves behind. */
  lemma StepTasks(s: Sys, e: Event, j: nat)
    requires j in Step(s, e).tasks
    ensures var t := Step(s, e).tasks[j];
            || t.Lookup? || t.Issue? || (j in s.tasks && t == s.tasks[j])
            || (e.Advance? && e.task == j && j in s.tasks)
  {
  }

  lemma NonePasses(s: Sys, e: Event, sessionId: string)
    requires HasEnded(s, sessionId) && !SomePassed(s, sessionId)
    ensures !SomePassed(Step(s, e), sessionId)
  {
    var n := Step(s, e);
    forall j | j in n.tasks
      ensures !((n.tasks[j].Mark? || n.tasks[j].Holding? || n.tasks[j].Cleared?) && n.tasks[j].row.sessionId == sessionId)
    {
      StepTasks(s, e, j);
    }
  }

  lemma NoneIsCleared(s: Sys, e: Event, sessionId: string)
    requires HasEnded(s, sessionId) && !SomeCleared(s, sessionId)
    ensures !SomeCleared(Step(s, e), sessionId)
  {
    var n := Step(s, e);
    forall j | j in n.tasks ensures !(n.tasks[j].Cleared? && n.tasks[j].serverSession == sessionId) {
      StepTasks(s, e, j);
    }
  }

  /** A step adds at most one mark and one use, each of the grant that the resumed handler carries. */
  lemma StepSpends(s: Sys, e: Event)
    ensures var n := Step(s, e);
            && (n.marks == s.marks || (e.Advance? && e.task in s.tasks && s.tasks[e.task].Mark? && n.marks == s.marks + [s.tasks[e.task].id]))
            && (n.uses == s.uses
                || (e.Advance? && e.task in s.tasks && |n.uses| == |s.uses| + 1 && n.uses[..|s.uses|] == s.uses
                    && (s.tasks[e.task].Holding? || s.tasks[e.task].Cleared?) && n.uses[|s.uses|].row == s.tasks[e.task].row
                    && (n.uses[|s.uses|].Pairing? ==>
                          s.tasks[e.task].Cleared? && n.uses[|s.uses|].serverSession == s.tasks[e.task].serverSession)))
  {
  }

  /** No mark and no use from the given positions on belongs to the session. */
  ghost predicate NothingSpent(t: Sys, marks: nat, uses: nat, sessionId: string) {
    && (forall i | marks <= i < |t.marks| :: t.marks[i] in t.db.grants && t.db.grants[t.marks[i]].sessionId != sessionId)
    && (forall i | uses <= i < |t.uses| :: t.uses[i].row.sessionId != sessionId)
  }

  /** One more mark, or one more use, of another session. */
  lemma StillNothingSpent(s: Sys, n: Sys, marks: nat, uses: nat, sessionId: string)
    requires NothingSpent(s, marks, uses, sessionId) && Grows(s.db, n.db)
    requires n.marks == s.marks
             || (|n.marks| == |s.marks| + 1 && n.marks[..|s.marks|] == s.marks
                 && n.marks[|s.marks|] in n.db.grants && n.db.grants[n.marks[|s.marks|]].sessionId != sessionId)
    requires n.uses == s.uses
             || (|n.uses| == |s.uses| + 1 && n.uses[..|s.uses|] == s.uses && n.uses[|s.uses|].row.sessionId != sessionId)
    ensures NothingSpent(n, marks, uses, sessionId)
  {
    forall i | marks <= i < |n.marks| ensures n.marks[i] in n.db.grants && n.db.grants[n.marks[i]].sessionId != sessionId {
      if i < |s.marks| { assert n.marks[i] == s.marks[i]; }
    }
    forall i | uses <= i < |n.uses| ensures n.uses[i].row.sessionId != sessionId {
      if i < |s.uses| { assert n.uses[i] == s.uses[i]; }
    }
  }

  /** A step spends no grant of the session. */
  lemma StepSpendsOthers(s: Sys, e: Event, sessionId: string)
    requires Books(s) && !SomePassed(s, sessionId)
    ensures var n := Step(s, e);
            && (n.marks == s.marks
                || (|n.marks| == |s.marks| + 1 && n.marks[..|s.marks|] == s.marks
                    && n.marks[|s.marks|] in n.db.grants && n.db.grants[n.marks[|s.marks|]].sessionId != sessionId))
            && (n.uses == s.uses
                || (|n.uses| == |s.uses| + 1 && n.uses[..|s.uses|] == s.uses && n.uses[|s.uses|].row.sessionId != sessionId))
  {
    StepSpends(s, e);
    if Step(s, e).marks != s.marks { MarkedRow(s, e, s.tasks[e.task].id); }
  }

  lemma StepSpendsNothing(s: Sys, e: Event, marks: nat, uses: nat, sessionId: string)
    requires Books(s) && !SomePassed(s, sessionId) && NothingSpent(s, marks, uses, sessionId)
    ensures NothingSpent(Step(s, e), marks, uses, sessionId) && s.marks <= Step(s, e).marks && s.uses <= Step(s, e).uses
  {
    StepSpendsOthers(s, e, sessionId);
    StepGrows(s, e);
    StillNothingSpent(s, Step(s, e), marks, uses, sessionId);
  }

  /** The grant that a step marks is the one the handler looked up. */
  lemma MarkedRow(s: Sys, e: Event, id: string)
    requires Books(s) && e.Advance? && e.task in s.tasks && s.tasks[e.task].Mark? && id == s.tasks[e.task].id
    ensures var n := Step(s, e); id in n.db.grants && n.db.grants[id].sessionId == s.tasks[e.task].row.sessionId
  {
    assert TaskSound(s.db, s.tasks[e.task]);
  }

  /** What the two results below are proved of, step by step. */
  ghost predicate Barred(s: Sys, t: Sys, sessionId: string) {
    && s.marks <= t.marks && s.uses <= t.uses && NothingSpent(t, |s.marks|, |s.uses|, sessionId)
    && HasEnded(t, sessionId) && !SomePassed(t, sessionId)
  }

  lemma StaysBarred(s: Sys, t: Sys, e: Event, sessionId: string)
    requires Books(t) && Barred(s, t, sessionId)
    ensures Barred(s, Step(t, e), sessionId)
  {
    StepSpendsNothing(t, e, |s.marks|, |s.uses|, sessionId);
    EndIsFinal(t, e, sessionId);
    NonePasses(t, e, sessionId);
  }

  lemma BarredAtOnce(s: Sys, sessionId: string)
    requires HasEnded(s, sessionId) && !SomePassed(s, sessionId)
    ensures Barred(s, s, sessionId)
  {
  }

  lemma BarredNext(start: Sys, events: seq<Event>, s: Sys, e: Event, sessionId: string)
    requires IsStart(start) && Barred(s, Run(start, events), sessionId)
    ensures Barred(s, Run(start, events + [e]), sessionId)
  {
    RunBooks(start, events);
    StaysBarred(s, Run(start, events), e, sessionId);
    RunSnoc(start, events, e);
  }

  lemma {:induction false} RunStaysBarred(start: Sys, events: seq<Event>, more: seq<Event>, sessionId: string)
    requires IsStart(start) && HasEnded(Run(start, events), sessionId) && !SomePassed(Run(start, events), sessionId)
    ensures Barred(Run(start, events), Run(start, events + more), sessionId)
  {
    if more == [] {
      assert events + more == events;
      BarredAtOnce(Run(start, events), sessionId);
    } else {
      var front, last := more[..|more| - 1], more[|more| - 1];
      assert events + more == events + front + [last];
      RunStaysBarred(start, events, front, sessionId);
      BarredNext(start, events + front, Run(start, events), last, sessionId);
    }
  }

  /**
   * A session that has been revoked or has expired, on any run: unless some handler had passed its check before,
   * no grant of that session is consumed any more, and none registers or pairs anything, however the run goes on.
   */
  lemma EndedSessionSpendsNothing(start: Sys, events: seq<Event>, more: seq<Event>, sessionId: string)
    requires IsStart(start) && HasEnded(Run(start, events), sessionId) && !SomePassed(Run(start, events), sessionId)
    ensures var s, t := Run(start, events), Run(start, events + more);
            && s.marks <= t.marks && s.uses <= t.uses
            && (forall i | |s.marks| <= i < |t.marks| ::
                  t.marks[i] in t.db.grants && t.db.grants[t.marks[i]].sessionId != sessionId)
            && (forall i | |s.uses| <= i < |t.uses| :: t.uses[i].row.sessionId != sessionId)
  {
    RunStaysBarred(start, events, more, sessionId);
  }

  ghost predicate Unclearable(s: Sys, t: Sys, sessionId: string) {
    && s.uses <= t.uses && HasEnded(t, sessionId) && !SomeCleared(t, sessionId)
    && forall i | |s.uses| <= i < |t.uses| && t.uses[i].Pairing? :: t.uses[i].serverSession != sessionId
  }

  /** A pair that a step forms is one for which its client was cleared. */
  lemma StepPairsOthers(s: Sys, e: Event, sessionId: string)
    requires !SomeCleared(s, sessionId)
    ensures var n := Step(s, e);
            && s.uses <= n.uses && |n.uses| <= |s.uses| + 1
            && (|n.uses| > |s.uses| && n.uses[|s.uses|].Pairing? ==> n.uses[|s.uses|].serverSession != sessionId)
  {
    StepSpends(s, e);
  }

  lemma MoreUsesUnclearable(s: Sys, t: Sys, n: Sys, sessionId: string)
    requires Unclearable(s, t, sessionId) && HasEnded(n, sessionId) && !SomeCleared(n, sessionId)
    requires t.uses <= n.uses && |n.uses| <= |t.uses| + 1
    requires |n.uses| > |t.uses| && n.uses[|t.uses|].Pairing? ==> n.uses[|t.uses|].serverSession != sessionId
    ensures Unclearable(s, n, sessionId)
  {
    forall i | |s.uses| <= i < |n.uses| && n.uses[i].Pairing? ensures n.uses[i].serverSession != sessionId {
      if i < |t.uses| { assert n.uses[i] == t.uses[i]; }
    }
  }

  lemma UnclearableNext(start: Sys, events: seq<Event>, s: Sys, e: Event, sessionId: string)
    requires Unclearable(s, Run(start, events), sessionId)
    ensures Unclearable(s, Run(start, events + [e]), sessionId)
  {
    var t := Run(start, events);
    EndIsFinal(t, e, sessionId);
    NoneIsCleared(t, e, sessionId);
    StepPairsOthers(t, e, sessionId);
    MoreUsesUnclearable(s, t, Step(t, e), sessionId);
    RunSnoc(start, events, e);
  }

  lemma {:induction false} RunStaysUnclearable(start: Sys, events: seq<Event>, more: seq<Event>, sessionId: string)
    requires HasEnded(Run(start, events), sessionId) && !SomeCleared(Run(start, events), sessionId)
    ensures Unclearable(Run(start, events), Run(start, events + more), sessionId)
  {
    if more == [] {
      assert events + more == events;
    } else {
      var front, last := more[..|more| - 1], more[|more| - 1];
      assert events + more == events + front + [last];
      RunStaysUnclearable(start, events, front, sessionId);
      UnclearableNext(start, events + front, Run(start, events), last, sessionId);
    }
  }

  /**
   * The same for the session of the server that a client was checked against: once it has ended, no client is
   * cleared for it any more, and no pair is formed by one that was.
   */
  lemma EndedServerClearsNobody(start: Sys, events: seq<Event>, more: seq<Event>, sessionId: string)
    requires HasEnded(Run(start, events), sessionId) && !SomeCleared(Run(start, events), sessionId)
    ensures var s, t := Run(start, events), Run(start, events + more);
            && s.uses <= t.uses && !SomeCleared(t, sessionId)
            && forall i | |s.uses| <= i < |t.uses| && t.uses[i].Pairing? :: t.uses[i].serverSession != sessionId
  {
    RunStaysUnclearable(start, events, more, sessionId);
  }

  // ---------- sessions that were active ----------

  /** The session is neither revoked nor expired. */
  predicate IsLive(s: Sys, sessionId: string) {
    sessionId in s.db.sessions && s.db.sessions[sessionId].revokedAt == None && s.db.sessions[sessionId].expiresAt > s.clock
  }

  /** At some point of the run the session was active. */
  ghost predicate WasLive(start: Sys, events: seq<Event>, sessionId: string) {
    exists n | 0 <= n <= |events| :: IsLive(Run(start, events[..n]), sessionId)
  }

  lemma WasLiveStays(start: Sys, events: seq<Event>, e: Event, sessionId: string)
    ensures WasLive(start, events, sessionId) ==> WasLive(start, events + [e], sessionId)
    ensures IsLive(Run(start, events), sessionId) ==> WasLive(start, events, sessionId)
  {
    assert events[..|events|] == events;
    if WasLive(start, events, sessionId) {
      var n :| 0 <= n <= |events| && IsLive(Run(start, events[..n]), sessionId);
      assert (events + [e])[..n] == events[..n];
    }
  }

  /** What the handler has checked so far was active when it was checked. */
  ghost predicate CheckedLive(start: Sys, events: seq<Event>, t: Task) {
    && (t.Mark? || t.Holding? || t.Cleared? ==> WasLive(start, events, t.row.sessionId))
    && (t.Cleared? ==> WasLive(start, events, t.serverSession))
  }

  ghost predicate UsedLive(start: Sys, events: seq<Event>, u: Use) {
    WasLive(start, events, u.row.sessionId) && (u.Pairing? ==> WasLive(start, events, u.serverSession))
  }

  /** A handler that has passed a check was active before, or has just passed it. */
  lemma StepChecks(s: Sys, e: Event, j: nat)
    requires j in Step(s, e).tasks
    ensures var t := Step(s, e).tasks[j];
            && (t.Mark? || t.Holding? || t.Cleared? ==>
                  j in s.tasks && (IsLive(s, t.row.sessionId)
                                   || ((s.tasks[j].Mark? || s.tasks[j].Holding? || s.tasks[j].Cleared?) && s.tasks[j].row == t.row)))
            && (t.Cleared? ==> j in s.tasks && (IsLive(s, t.serverSession) || s.tasks[j] == t))
  {
    StepTasks(s, e, j);
  }

  lemma LiveOneMore(start: Sys, events: seq<Event>, e: Event, t: Task, before: Task)
    requires CheckedLive(start, events, before)
    requires t.Mark? || t.Holding? || t.Cleared? ==>
               || IsLive(Run(start, events), t.row.sessionId)
               || ((before.Mark? || before.Holding? || before.Cleared?) && before.row == t.row)
    requires t.Cleared? ==> IsLive(Run(start, events), t.serverSession) || before == t
    ensures CheckedLive(start, events + [e], t)
  {
    if t.Mark? || t.Holding? || t.Cleared? { WasLiveStays(start, events, e, t.row.sessionId); }
    if t.Cleared? { WasLiveStays(start, events, e, t.serverSession); }
  }

  lemma TasksStayChecked(start: Sys, events: seq<Event>, e: Event, j: nat)
    requires forall k | k in Run(start, events).tasks :: CheckedLive(start, events, Run(start, events).tasks[k])
    requires j in Step(Run(start, events), e).tasks
    ensures CheckedLive(start, events + [e], Step(Run(start, events), e).tasks[j])
  {
    var s := Run(start, events);
    StepChecks(s, e, j);
    if j in s.tasks {
      LiveOneMore(start, events, e, Step(s, e).tasks[j], s.tasks[j]);
    }
  }

  lemma UsedOneMore(start: Sys, events: seq<Event>, e: Event, u: Use)
    requires UsedLive(start, events, u)
    ensures UsedLive(start, events + [e], u)
  {
    WasLiveStays(start, events, e, u.row.sessionId);
    if u.Pairing? { WasLiveStays(start, events, e, u.serverSession); }
  }

  lemma UsesStayLive(start: Sys, events: seq<Event>, e: Event, i: nat)
    requires forall k | k in Run(start, events).tasks :: CheckedLive(start, events, Run(start, events).tasks[k])
    requires forall u | u in Run(start, events).uses :: UsedLive(start, events, u)
    requires i < |Step(Run(start, events), e).uses|
    ensures UsedLive(start, events + [e], Step(Run(start, events), e).uses[i])
  {
    var s := Run(start, events);
    var u := Step(s, e).uses[i];
    StepSpends(s, e);
    if i < |s.uses| {
      assert u == s.uses[i];
    } else {
      assert CheckedLive(start, events, s.tasks[e.task]);
    }
    assert UsedLive(start, events, u);
    UsedOneMore(start, events, e, u);
  }

  /**
   * Behind every registration and every pair of a run lies a moment of that run at which the session of its
   * grant was active, and for a pair one at which the session of the server it was checked against was.
   */
  lemma {:induction false} SessionsWereActive(start: Sys, events: seq<Event>)
    requires start.tasks == map[] && start.uses == []
    ensures forall k | k in Run(start, events).tasks :: CheckedLive(start, events, Run(start, events).tasks[k])
    ensures forall u | u in Run(start, events).uses ::
              && WasLive(start, events, u.row.sessionId)
              && (u.Pairing? ==> WasLive(start, events, u.serverSession))
  {
    if events != [] {
      var front, e := events[..|events| - 1], events[|events| - 1];
      assert events == front + [e];
      SessionsWereActive(start, front);
      forall k | k in Run(start, events).tasks ensures CheckedLive(start, events, Run(start, events).tasks[k]) {
        TasksStayChecked(start, front, e, k);
      }
      forall u | u in Run(start, front).uses ensures UsedLive(start, front, u) {}
      forall u | u in Run(start, events).uses ensures UsedLive(start, events, u) {
        var i :| 0 <= i < |Run(start, events).uses| && Run(start, events).uses[i] == u;
        UsesStayLive(start, front, e, i);
      }
    }
  }

  // ---------- accounts come from grants ----------

  /** The account of a tracked server is that of a grant it registered with, session included. */
  ghost predicate Granted(uses: seq<Use>, ws: Socket, auth: Auth, username: string) {
    exists i | 0 <= i < |uses| ::
      && uses[i].Registration? && uses[i].ws == ws && uses[i].username == username
      && auth == Auth(uses[i].row.userId, uses[i].row.sessionId, uses[i].row.deviceId)
  }

  ghost predicate AllGranted(m: Maps, uses: seq<Use>) {
    forall ws | ws in m.serverAuth :: ws in m.activeServers && Granted(uses, ws, m.serverAuth[ws], m.activeServers[ws].username)
  }

  lemma GrantedStays(uses: seq<Use>, u: Use, ws: Socket, auth: Auth, username: string)
    requires Granted(uses, ws, auth, username)
    ensures Granted(uses + [u], ws, auth, username)
  {
    var i :| 0 <= i < |uses| && uses[i].Registration? && uses[i].ws == ws && uses[i].username == username
             && auth == Auth(uses[i].row.userId, uses[i].row.sessionId, uses[i].row.deviceId);
    assert (uses + [u])[i] == uses[i];
  }

  lemma RegistrationGrants(s: Sys, e: Event)
    requires RegistersNow(s, e) && AllGranted(s.h.m, s.uses)
    ensures AllGranted(Step(s, e).h.m, Step(s, e).uses)
  {
    var n, t := Step(s, e), s.tasks[e.task];
    var p := t.purpose;
    var u := Registration(p.ws, p.username, t.id, t.row, p.installId);
    assert n.uses == s.uses + [u] && n.uses[|s.uses|] == u;
    forall ws | ws in n.h.m.serverAuth
      ensures ws in n.h.m.activeServers && Granted(n.uses, ws, n.h.m.serverAuth[ws], n.h.m.activeServers[ws].username)
    {
      if ws != p.ws { GrantedStays(s.uses, u, ws, s.h.m.serverAuth[ws], s.h.m.activeServers[ws].username); }
    }
  }

  lemma PairingKeepsGrants(s: Sys, e: Event)
    requires PairsNow(s, e) && AllGranted(s.h.m, s.uses)
    ensures AllGranted(Step(s, e).h.m, Step(s, e).uses)
  {
    var n, t := Step(s, e), s.tasks[e.task];
    var u := PairingOf(s.h.m, t.ws, t.username, t.id, t.row, t.serverSession);
    assert n.h.m == Connected(s.h.m, t.ws, t.username) && n.uses == s.uses + [u];
    forall ws | ws in n.h.m.serverAuth
      ensures ws in n.h.m.activeServers && Granted(n.uses, ws, n.h.m.serverAuth[ws], n.h.m.activeServers[ws].username)
    {
      GrantedStays(s.uses, u, ws, s.h.m.serverAuth[ws], s.h.m.activeServers[ws].username);
    }
  }

  lemma CloseKeepsGrants(s: Sys, ws: Socket)
    requires AllGranted(s.h.m, s.uses)
    ensures AllGranted(Step(s, Gone(ws)).h.m, Step(s, Gone(ws)).uses)
  {
  }

  lemma {:induction false} RunGranted(start: Sys, events: seq<Event>)
    requires IsStart(start)
    ensures AllGranted(Run(start, events).h.m, Run(start, events).uses)
  {
    if events != [] {
      var s, e := Run(start, events[..|events| - 1]), events[|events| - 1];
      RunGranted(start, events[..|events| - 1]);
      if e.Gone? {
        CloseKeepsGrants(s, e.ws);
      } else if RegistersNow(s, e) {
        RegistrationGrants(s, e);
      } else if PairsNow(s, e) {
        PairingKeepsGrants(s, e);
      } else {
        QuietStep(s, e);
      }
    }
  }

  /**
   * On every run each account by which the relay knows a tracked server, user, device and session, is that
   * of a grant which the server's own socket consumed to register the username it is tracked under.
   */
  lemma AccountsAreGranted(start: Sys, events: seq<Event>, ws: Socket)
    requires IsStart(start) && ws in Run(start, events).h.m.serverAuth
    ensures var s := Run(start, events);
            ws in s.h.m.activeServers && exists i | 0 <= i < |s.uses| ::
              && s.uses[i].Registration? && s.uses[i].ws == ws && s.uses[i].username == s.h.m.activeServers[ws].username
              && s.h.m.serverAuth[ws] == Auth(s.uses[i].row.userId, s.uses[i].row.sessionId, s.uses[i].row.deviceId)
  {
    RunGranted(start, events);
    var s := Run(start, events);
    assert Granted(s.uses, ws, s.h.m.serverAuth[ws], s.h.m.activeServers[ws].username);
  }

  // ---------- what a control message starts ----------

  /** The grant of a control message, trimmed; an absent or blank one starts nothing. */
  function GrantIn(frame: Frame): string {
    match frame.message
    case ServerRegister(_, _, _, grant) => if grant.Some? then Trim(grant.value) else ""
    case ClientConnect(_, grant) => if grant.Some? then Trim(grant.value) else ""
    case Other => ""
  }

  /**
   * What a text frame from an open, unpaired socket starts, with the database and the maps as they are: a
   * registration with any grant, a connection only with a grant and a server that waits under a registered
   * username. The handler remembers the clock, and a client remembers the server's account.
   */
  lemma ControlMessageStarts(s: Sys, ws: Socket, frame: Frame)
    requires ws !in s.h.closed && (ws in s.h.conns ==> !s.h.conns[ws].paired)
    ensures var n := Step(s, Event.Received(ws, frame));
            && n.h.m == s.h.m && n.h.rows == s.h.rows && n.db == s.db && n.uses == s.uses && n.marks == s.marks && n.clock == s.clock
            && (frame.isBinary || GrantIn(frame) == "" ==> n.tasks == s.tasks)
            && (!frame.isBinary && GrantIn(frame) != "" && frame.message.ServerRegister? ==>
                  var m := frame.message;
                  n.tasks == s.tasks[s.next := Lookup(ForServer(ws, m.username, m.installId, m.metadata), GrantIn(frame), s.clock)])
            && (!frame.isBinary && GrantIn(frame) != "" && frame.message.ClientConnect? ==>
                  var u := frame.message.username;
                  if u in s.h.rows && u in s.h.m.waiting && s.h.m.waiting[u] in s.h.m.activeServers then
                    var server := s.h.m.waiting[u];
                    n.tasks == s.tasks[s.next := Lookup(
                      ForClient(ws, u, WaitingInfo(server, s.h.m.activeServers[server],
                                                   if server in s.h.m.serverAuth then Some(s.h.m.serverAuth[server]) else None)),
                      GrantIn(frame), s.clock)]
                  else n.tasks == s.tasks)
  {
  }

  // ---------- grants as they are issued ----------

  /** A row as issued: for one minute, for the installation of its device if it is to register a server. */
  predicate AsIssued(db: Db, row: GrantRow, clock: int) {
    && row.expiresAt == row.createdAt + 60_000 && row.createdAt <= clock && row.revokedAt == None
    && row.deviceId in db.devices
    && row.installId == if row.grantType == GS.ServerRegister then Some(db.devices[row.deviceId].installId) else None
  }

  predicate WillIssue(db: Db, t: Task) {
    t.Issue? ==>
      && t.deviceId in db.devices
      && t.installId == if t.grantType == GS.ServerRegister then Some(db.devices[t.deviceId].installId) else None
  }

  ghost predicate NewGrantsAsIssued(start: Sys, s: Sys) {
    && start.clock <= s.clock
    && (forall k | k in s.tasks :: WillIssue(s.db, s.tasks[k]))
    && (forall g | g in s.db.grants && g !in start.db.grants :: AsIssued(s.db, s.db.grants[g], s.clock))
  }

  lemma IssueGrows(s: Sys, k: nat, freshId: string, freshToken: string)
    requires Books(s) && k in s.tasks && s.tasks[k].Issue? && WillIssue(s.db, s.tasks[k])
    ensures var n := Resume(s, k, freshId, freshToken);
            forall g | g in n.db.grants && g !in s.db.grants :: AsIssued(n.db, n.db.grants[g], n.clock)
  {
  }

  /** Only the end of an issue adds a grant. */
  lemma NewGrantIsIssued(s: Sys, e: Event, g: string)
    requires g in Step(s, e).db.grants && g !in s.db.grants
    ensures e.Advance? && e.task in s.tasks && s.tasks[e.task].Issue?
  {
    if e.Received? { ReceiveWritesNothing(s, e.ws, e.frame); }
  }

  lemma StepTasksIssue(s: Sys, e: Event, j: nat)
    requires Books(s) && j in Step(s, e).tasks && forall k | k in s.tasks :: WillIssue(s.db, s.tasks[k])
    ensures WillIssue(Step(s, e).db, Step(s, e).tasks[j])
  {
    var t := Step(s, e).tasks[j];
    if t.Issue? {
      IssueTasks(s, e, j);
      StepGrows(s, e);
      if j in s.tasks && t == s.tasks[j] { assert WillIssue(s.db, s.tasks[j]); }
    }
  }

  /** Issues are under way from before, or have just been asked for. */
  lemma IssueTasks(s: Sys, e: Event, j: nat)
    requires j in Step(s, e).tasks && Step(s, e).tasks[j].Issue?
    ensures var t := Step(s, e).tasks[j];
            || (j in s.tasks && t == s.tasks[j])
            || (t.deviceId in s.db.devices
                && t.installId == if t.grantType == GS.ServerRegister then Some(s.db.devices[t.deviceId].installId) else None)
  {
  }

  lemma GrantKeepsShape(a: Db, b: Db, g: string, clock: int, later: int)
    requires Grows(a, b) && g in a.grants && AsIssued(a, a.grants[g], clock) && clock <= later
    ensures AsIssued(b, b.grants[g], later)
  {
  }

  lemma IssuesStepByStep(start: Sys, s: Sys, e: Event)
    requires Books(s) && NewGrantsAsIssued(start, s)
    ensures NewGrantsAsIssued(start, Step(s, e))
  {
    var n := Step(s, e);
    StepGrows(s, e);
    ClockGrows(s, e);
    forall j | j in n.tasks ensures WillIssue(n.db, n.tasks[j]) {
      StepTasksIssue(s, e, j);
    }
    forall g | g in n.db.grants && g !in start.db.grants ensures AsIssued(n.db, n.db.grants[g], n.clock) {
      if g in s.db.grants {
        GrantKeepsShape(s.db, n.db, g, s.clock, n.clock);
      } else {
        NewGrantIsIssued(s, e, g);
        IssueGrows(s, e.task, e.freshId, e.freshToken);
      }
    }
  }

  lemma ClockGrows(s: Sys, e: Event)
    ensures s.clock <= Step(s, e).clock
  {
    if e.Received? { ReceiveWritesNothing(s, e.ws, e.frame); }
  }

  lemma {:induction false} RunIssues(start: Sys, events: seq<Event>)
    requires IsStart(start)
    ensures NewGrantsAsIssued(start, Run(start, events))
  {
    if events != [] {
      RunIssues(start, events[..|events| - 1]);
      RunBooks(start, events[..|events| - 1]);
      IssuesStepByStep(start, Run(start, events[..|events| - 1]), events[|events| - 1]);
    }
  }

  /**
   * Every grant that a run adds lasts one minute from its creation, is not revoked, is routed to its user's device,
   * and names that device's installation exactly when it is to register a server.
   */
  lemma GrantsAreIssuedAsPromised(start: Sys, events: seq<Event>, g: string)
    requires IsStart(start) && g in Run(start, events).db.grants && g !in start.db.grants
    ensures var s := Run(start, events);
            var row := s.db.grants[g];
            && row.expiresAt == row.createdAt + 60_000 && row.createdAt <= s.clock && row.revokedAt == None
            && row.deviceId in s.db.devices && s.db.devices[row.deviceId].userId == row.userId
            && s.db.devices[row.deviceId].relayUsername == row.relayUsername
            && row.installId == if row.grantType == GS.ServerRegister then Some(s.db.devices[row.deviceId].installId) else None
  {
    RunBooks(start, events);
    RunIssues(start, events);
    assert AsIssued(Run(start, events).db, Run(start, events).db.grants[g], Run(start, events).clock);
  }

  /** The end of an issue inserts one row, created now and expiring one minute later, unless id or token is taken. */
  lemma IssueInserts(s: Sys, k: nat, freshId: string, freshToken: string)
    requires k in s.tasks && s.tasks[k].Issue?
    ensures var n, t := Step(s, Advance(k, freshId, freshToken)), s.tasks[k];
            && n.tasks == s.tasks - {k} && n.db.sessions == s.db.sessions && n.db.devices == s.db.devices
            && n.db.grants
               == if freshId !in s.db.grants && forall g | g in s.db.grants :: s.db.grants[g].token != freshToken
                  then s.db.grants[freshId := GrantRow(t.grantType, freshToken, t.userId, t.sessionId, t.deviceId, t.relayUsername,
                                                       t.installId, s.clock, s.clock + 60_000, None, None)]
                  else s.db.grants
  {
  }

  /** A request for a client grant goes on exactly for the caller's own device, seen within the last minute. */
  lemma ClientGrantsNeedHeartbeat(s: Sys, userId: string, sessionId: string, deviceId: string)
    ensures var n := Step(s, AskClientGrant(userId, sessionId, deviceId));
            if deviceId in s.db.devices && s.db.devices[deviceId].userId == userId && s.clock <= s.db.devices[deviceId].lastSeenAt + 60_000
            then n == s.(next := s.next + 1, tasks := s.tasks[s.next := Issue(GS.ClientConnect, userId, sessionId, deviceId,
                                                                              s.db.devices[deviceId].relayUsername, None)])
            else n == s
  {
  }

  /** A request for a server grant goes on exactly for the caller's own device with that route and installation. */
  lemma ServerGrantsNeedTheDevice(s: Sys, userId: string, sessionId: string, deviceId: string, relayUsername: string, installId: string)
    ensures var n := Step(s, AskServerGrant(userId, sessionId, deviceId, relayUsername, installId));
            if deviceId in s.db.devices && s.db.devices[deviceId].userId == userId
               && s.db.devices[deviceId].relayUsername == relayUsername && s.db.devices[deviceId].installId == installId
            then n == s.(next := s.next + 1, tasks := s.tasks[s.next := Issue(GS.ServerRegister, userId, sessionId, deviceId,
                                                                              relayUsername, Some(installId))])
            else n == s
  {
  }

  // ---------- without interference ----------

  lemma EndedStays(s: Sys, k: nat, n: nat)
    requires k !in s.tasks
    ensures Run(s, Resumes(k, n)) == s
  {
    if n > 0 {
      EndedStays(s, k, n - 1);
      RunSnoc(s, Resumes(k, n - 1), Advance(k, "", ""));
    }
  }

  lemma {:induction false} ResumesCons(k: nat, n: nat)
    ensures Resumes(k, n + 1) == [Advance(k, "", "")] + Resumes(k, n)
  {
    if n > 0 {
      ResumesCons(k, n - 1);
    }
  }

  lemma ResumesFirst(s: Sys, k: nat, n: nat)
    ensures Run(s, Resumes(k, n + 1)) == Run(Step(s, Advance(k, "", "")), Resumes(k, n))
  {
    ResumesCons(k, n);
    RunConcat(s, [Advance(k, "", "")], Resumes(k, n));
    RunOne(s, Advance(k, "", ""));
  }

  lemma LookupFails(s: Sys, k: nat, p: Purpose, token: string)
    requires k in s.tasks && s.tasks[k] == Lookup(p, token, s.clock) && TokensUnique(s.db.grants)
    requires forall id | id in s.db.grants && s.db.grants[id].token == token ::
               var row := s.db.grants[id];
               row.grantType != Expected(p) || row.revokedAt.Some? || row.consumedAt.Some? || row.expiresAt <= s.clock
    ensures Run(s, Resumes(k, 3)) == s.(tasks := s.tasks - {k})
  {
    ResumesFirst(s, k, 2);
    assert Step(s, Advance(k, "", "")) == Ended(s, k);
    EndedStays(Ended(s, k), k, 2);
  }

  lemma SessionFails(s: Sys, k: nat, p: Purpose, token: string, id: string)
    requires k in s.tasks && s.tasks[k] == Lookup(p, token, s.clock) && TokensUnique(s.db.grants)
    requires id in s.db.grants && s.db.grants[id].token == token && !IsLive(s, s.db.grants[id].sessionId)
    requires var row := s.db.grants[id];
             row.grantType == Expected(p) && row.revokedAt == None && row.consumedAt == None && row.expiresAt > s.clock
    ensures Run(s, Resumes(k, 3)) == s.(tasks := s.tasks - {k})
  {
    var s1 := s.(tasks := s.tasks[k := CheckSession(p, id, s.db.grants[id], s.clock)]);
    TokenFinds(s.db, token, id);
    ResumesFirst(s, k, 2);
    ResumesFirst(s1, k, 1);
    assert Step(s1, Advance(k, "", "")) == Ended(s1, k);
    assert s1.tasks - {k} == s.tasks - {k};
    EndedStays(Ended(s1, k), k, 1);
  }

  /**
   * The three awaits of a consumption with nothing in between come to what `consumeRelayGrant` does at once: the
   * handler holds the grant exactly when the method succeeds, its mark is the only change, and otherwise
   * the handler has ended.
   */
  lemma UninterruptedConsumption(s: Sys, k: nat, p: Purpose, token: string)
    requires k in s.tasks && s.tasks[k] == Lookup(p, token, s.clock) && TokensUnique(s.db.grants)
    ensures var t := Run(s, Resumes(k, 3));
            if exists id | id in s.db.grants ::
                 var row := s.db.grants[id];
                 && row.token == token && row.grantType == (if p.ForServer? then GS.ServerRegister else GS.ClientConnect)
                 && row.revokedAt == None && row.consumedAt == None && row.expiresAt > s.clock
                 && row.sessionId in s.db.sessions && s.db.sessions[row.sessionId].revokedAt == None
                 && s.db.sessions[row.sessionId].expiresAt > s.clock
            then
              exists id | id in s.db.grants :: var row := s.db.grants[id];
                && row.token == token && t.marks == s.marks + [id] && t.tasks == s.tasks[k := Holding(p, id, row)]
                && t.db == s.db.(grants := s.db.grants[id := row.(consumedAt := Some(s.clock))])
            else t == s.(tasks := s.tasks - {k})
  {
    if id :| id in s.db.grants && s.db.grants[id].token == token {
      var row := s.db.grants[id];
      if row.grantType != Expected(p) || row.revokedAt.Some? || row.consumedAt.Some? || row.expiresAt <= s.clock {
        LookupFails(s, k, p, token);
      } else if IsLive(s, row.sessionId) {
        ConsumeRuns(s, k, p, token, id);
      } else {
        SessionFails(s, k, p, token, id);
      }
    } else {
      LookupFails(s, k, p, token);
    }
  }
}
