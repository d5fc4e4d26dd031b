/**
 * The keepalive of one socket in packages/relay/src/ws-handler.ts: repeating ping timers and the pong
 * timeouts they start. The state of a socket knows one handle of either kind, and timers fire when they are due.
 */
module Keepalive {
  import opened Options

  /** `pingIntervalMs` and `pongTimeoutMs`. */
  datatype Config = Config(pingInterval: int, pongTimeout: int)

  predicate Sane(c: Config) {
    0 < c.pingInterval && 0 <= c.pongTimeout
  }

  /**
   * `intervals` and `timeouts` are the live timers by handle, with the instant at which each fires next;
   * `known` is `state.pingInterval` and `handle` is `state.pongTimeout`. `registered` says that the
   * socket has become a server, `asked` is the earliest ping since the last pong, `heard` the last pong
   * or registration, and `closes` are the instants at which the keepalive closed the socket.
   */
  datatype Timers = Timers(
    now: int, intervals: map<nat, int>, known: Option<nat>, timeouts: map<nat, int>, handle: Option<nat>, next: nat,
    registered: bool, paired: bool, asked: Option<int>, heard: int, closes: seq<int>)

  const IDLE := Timers(0, map[], None, map[], None, 0, false, false, None, 0, [])

  /**
   * `Register` and `Claim` are the control messages of this socket that take effect, as a server and as
   * a client; `Taken` pairs it with another socket's client, and `Gone` is its close.
   */
  datatype Event = Register | Claim | Taken | Gone | Pong | PingDue(interval: nat) | PongDue(timeout: nat) | Wait(until: int)

  function Stopped(t: Timers): Timers {
    PongSeen(t).(intervals := if t.known.Some? then t.intervals - {t.known.value} else t.intervals, known := None)
  }

  /** `state.pongTimeout` is cleared. */
  function PongSeen(t: Timers): Timers {
    t.(timeouts := if t.handle.Some? then t.timeouts - {t.handle.value} else t.timeouts, handle := None)
  }

  /** Only a registered socket is taken as a server, and timers fire exactly when they are due. */
  predicate Enabled(t: Timers, e: Event) {
    match e
    case Taken => t.registered
    case PingDue(i) => i in t.intervals && t.intervals[i] == t.now
    case PongDue(id) => id in t.timeouts && t.timeouts[id] == t.now
    case Wait(until) =>
      && t.now <= until
      && (forall i | i in t.intervals :: until <= t.intervals[i])
      && forall id | id in t.timeouts :: until <= t.timeouts[id]
    case _ => true
  }

  /** An interval that fires on a paired socket clears the one that is known, which may be another. */
  function Pinged(c: Config, t: Timers, i: nat): Timers {
    var intervals := t.intervals[i := t.now + c.pingInterval];
    if t.paired then t.(intervals := if t.known.Some? then intervals - {t.known.value} else intervals, known := None)
    else
      t.(intervals := intervals, timeouts := t.timeouts[t.next := t.now + c.pongTimeout], handle := Some(t.next),
      next := t.next + 1, asked := if t.asked.Some? then t.asked else Some(t.now))
  }

  function Next(c: Config, t: Timers, e: Event): Timers {
    match e
    case Register =>
      t.(intervals := t.intervals[t.next := t.now + c.pingInterval], known := Some(t.next), next := t.next + 1,
      registered := true, heard := t.now)
    case Claim => t.(paired := true)
    case Taken => Stopped(t).(paired := true)
    case Gone => Stopped(t)
    case Pong => PongSeen(t).(asked := None, heard := t.now)
    case PingDue(i) => Pinged(c, t, i)
    case PongDue(id) => t.(timeouts := t.timeouts - {id}, closes := t.closes + [t.now])
    case Wait(until) => t.(now := until)
  }

  function Run(c: Config, events: seq<Event>): Timers {
    if events == [] then IDLE else Next(c, Run(c, events[..|events| - 1]), events[|events| - 1])
  }

  predicate IsRun(c: Config, events: seq<Event>) {
    events == [] || (IsRun(c, events[..|events| - 1]) && Enabled(Run(c, events[..|events| - 1]), events[|events| - 1]))
  }

  predicate IsControl(e: Event) {
    e.Register? || e.Claim?
  }

  /** How many control messages of the socket take effect. */
  function Controls(events: seq<Event>): nat {
    if events == [] then 0
    else Controls(events[..|events| - 1]) + if IsControl(events[|events| - 1]) then 1 else 0
  }

  /** A run in which at most `n` control messages of the socket take effect. */
  predicate RunWithin(c: Config, n: nat, events: seq<Event>) {
    IsRun(c, events) && Controls(events) <= n
  }

  // ---------- what holds on every run ----------

  /** Live timers lie ahead, within one period, and the known interval is live. */
  predicate Live(c: Config, t: Timers) {
    && (forall i | i in t.intervals :: i < t.next && t.now <= t.intervals[i] <= t.now + c.pingInterval)
    && (forall id | id in t.timeouts :: id < t.next && t.now <= t.timeouts[id] <= t.now + c.pongTimeout)
    && (t.known.Some? ==> t.known.value in t.intervals)
    && (t.handle.Some? ==> t.handle.value < t.next)
    && (t.asked.Some? ==> t.asked.value <= t.now)
    && t.heard <= t.now
  }

  lemma LiveStep(c: Config, t: Timers, e: Event)
    requires Sane(c) && Live(c, t) && Enabled(t, e)
    ensures Live(c, Next(c, t, e))
  {
  }

  predicate ClosedSince(t: Timers, from: int) {
    t.closes != [] && t.closes[|t.closes| - 1] >= from
  }

  /** Some timeout is due by then. */
  predicate DueBy(t: Timers, until: int) {
    exists id :: id in t.timeouts && t.timeouts[id] <= until
  }

  /** While it waits and has not been closed since it was last heard, a ping or a timeout is near. */
  predicate Watched(c: Config, t: Timers) {
    t.known.Some? && !t.paired && !ClosedSince(t, t.heard) ==>
      || (t.known.value in t.intervals && t.intervals[t.known.value] <= t.heard + c.pingInterval)
      || DueBy(t, t.heard + c.pingInterval + c.pongTimeout)
  }

  lemma PingWatches(c: Config, t: Timers, i: nat)
    requires Sane(c) && Live(c, t) && Watched(c, t) && Enabled(t, PingDue(i))
    ensures Watched(c, Next(c, t, PingDue(i)))
  {
    var n := Next(c, t, PingDue(i));
    if n.known.Some? && !n.paired && !ClosedSince(n, n.heard) {
      var limit := t.heard + c.pingInterval + c.pongTimeout;
      if DueBy(t, limit) {
        var id :| id in t.timeouts && t.timeouts[id] <= limit;
        assert id in n.timeouts && n.timeouts[id] == t.timeouts[id];
      } else if i == t.known.value {
        assert t.next in n.timeouts && n.timeouts[t.next] <= limit;
      }
    }
  }

  lemma WatchedStep(c: Config, t: Timers, e: Event)
    requires Sane(c) && Live(c, t) && Watched(c, t) && Enabled(t, e)
    ensures Watched(c, Next(c, t, e))
  {
    match e
    case PingDue(i) => PingWatches(c, t, i);
    case Wait(until) =>
      var limit := t.heard + c.pingInterval + c.pongTimeout;
      if DueBy(t, limit) {
        var id :| id in t.timeouts && t.timeouts[id] <= limit;
        assert DueBy(Next(c, t, e), limit);
      }
    case _ =>
  }

  lemma {:induction false} WatchedRun(c: Config, events: seq<Event>)
    requires Sane(c) && IsRun(c, events)
    ensures Live(c, Run(c, events)) && Watched(c, Run(c, events))
  {
    if events != [] {
      WatchedRun(c, events[..|events| - 1]);
      LiveStep(c, Run(c, events[..|events| - 1]), events[|events| - 1]);
      WatchedStep(c, Run(c, events[..|events| - 1]), events[|events| - 1]);
    }
  }

  /**
   * On every run, with any number of registrations and any timeout: a waiting socket that has been silent for
   * longer than one interval plus one timeout has been closed since it was last heard.
   */
  lemma SilentIsClosed(c: Config, events: seq<Event>)
    requires Sane(c) && IsRun(c, events)
    ensures var t := Run(c, events);
            t.known.Some? && !t.paired && t.now > t.heard + c.pingInterval + c.pongTimeout ==> ClosedSince(t, t.heard)
  {
    WatchedRun(c, events);
  }

  // ---------- one control message ----------

  /** No timer has been started and the socket is not paired. */
  predicate Quiet(t: Timers) {
    t.intervals == map[] && t.known == None && t.timeouts == map[] && t.handle == None && !t.registered && !t.paired
  }

  /**
   * Every live timer is the known one, a pending timeout belongs to the last ping of the interval, which
   * is not answered, and a paired socket has no timers.
   */
  predicate Tidy(c: Config, t: Timers) {
    && (forall i | i in t.intervals :: t.known == Some(i))
    && (forall id | id in t.timeouts ::
          && t.handle == Some(id) && t.known.Some? && t.known.value in t.intervals
          && t.intervals[t.known.value] - c.pingInterval == t.timeouts[id] - c.pongTimeout
          && t.asked.Some? && t.asked.value <= t.timeouts[id] - c.pongTimeout)
    && (t.paired ==> t.intervals == map[] && t.timeouts == map[])
  }

  /** A control message comes first, and a ping only after the timeout of the one before. */
  predicate Undisturbed(t: Timers, e: Event) {
    && (IsControl(e) ==> Quiet(t))
    && (e.PingDue? ==> t.timeouts == map[])
  }

  lemma TidyStep(c: Config, t: Timers, e: Event)
    requires Live(c, t) && Tidy(c, t) && Enabled(t, e) && Undisturbed(t, e)
    ensures Tidy(c, Next(c, t, e))
  {
  }

  lemma QuietStep(c: Config, t: Timers, e: Event)
    requires Quiet(t) && Enabled(t, e) && !IsControl(e)
    ensures Quiet(Next(c, t, e)) && Next(c, t, e).closes == t.closes
  {
  }

  lemma {:induction false} QuietRun(c: Config, events: seq<Event>)
    requires RunWithin(c, 0, events)
    ensures Quiet(Run(c, events)) && Run(c, events).closes == []
  {
    if events != [] {
      QuietRun(c, events[..|events| - 1]);
      QuietStep(c, Run(c, events[..|events| - 1]), events[|events| - 1]);
    }
  }

  lemma ShorterIsOver(c: Config, t: Timers, i: nat)
    requires c.pongTimeout < c.pingInterval && Live(c, t) && Tidy(c, t) && Enabled(t, PingDue(i))
    ensures t.timeouts == map[]
  {
    assert forall id :: id !in t.timeouts;
  }

  lemma {:induction false} TidyRun(c: Config, events: seq<Event>)
    requires Sane(c) && c.pongTimeout < c.pingInterval && RunWithin(c, 1, events)
    ensures Live(c, Run(c, events)) && Tidy(c, Run(c, events))
  {
    if events != [] {
      var front, e := events[..|events| - 1], events[|events| - 1];
      TidyRun(c, front);
      LiveStep(c, Run(c, front), e);
      if IsControl(e) { QuietRun(c, front); }
      if e.PingDue? { ShorterIsOver(c, Run(c, front), e.interval); }
      TidyStep(c, Run(c, front), e);
    }
  }

  /** Every ping is followed by a pong before its timeout is due. */
  predicate Answers(c: Config, events: seq<Event>) {
    && (events == [] || Answers(c, events[..|events| - 1]))
    && (Run(c, events).asked.Some? ==> Run(c, events).now < Run(c, events).asked.value + c.pongTimeout)
  }

  lemma AnsweredIsOver(c: Config, t: Timers, e: Event)
    requires c.pongTimeout <= c.pingInterval && Live(c, t) && Tidy(c, t) && Enabled(t, e) && (e.PingDue? || e.PongDue?)
    requires t.asked.Some? ==> t.now < t.asked.value + c.pongTimeout
    ensures t.timeouts == map[]
  {
    assert forall id :: id !in t.timeouts;
  }

  lemma {:induction false} AnsweredRun(c: Config, events: seq<Event>)
    requires Sane(c) && c.pongTimeout <= c.pingInterval && RunWithin(c, 1, events) && Answers(c, events)
    ensures Live(c, Run(c, events)) && Tidy(c, Run(c, events)) && Run(c, events).closes == []
  {
    if events != [] {
      var front, e := events[..|events| - 1], events[|events| - 1];
      AnsweredRun(c, front);
      LiveStep(c, Run(c, front), e);
      if IsControl(e) { QuietRun(c, front); }
      if e.PingDue? || e.PongDue? { AnsweredIsOver(c, Run(c, front), e); }
      TidyStep(c, Run(c, front), e);
    }
  }

  /** When a timeout closes the socket, it is not paired and some ping has gone unanswered for the whole timeout. */
  predicate ClosedForSilence(c: Config, t: Timers) {
    !t.paired && t.asked.Some? && t.asked.value <= t.now - c.pongTimeout
  }

  // ---------- what one step does to the timers ----------

  lemma RegisterAddsInterval(c: Config, t: Timers)
    requires Live(c, t)
    ensures var n := Next(c, t, Register);
            && |n.intervals| == |t.intervals| + 1 && t.intervals.Keys <= n.intervals.Keys
            && (Quiet(t) ==> Tidy(c, n))
  {
    assert t.next !in t.intervals;
    if Quiet(t) { TidyStep(c, t, Register); }
  }

  /** Tidy timers are all known, so stopping leaves none, and a pong no timeout. */
  lemma StopClears(c: Config, t: Timers)
    requires Tidy(c, t)
    ensures Stopped(t).intervals == map[] && Stopped(t).timeouts == map[] && PongSeen(t).timeouts == map[]
    ensures Tidy(c, Next(c, t, Gone)) && Tidy(c, Next(c, t, Taken)) && Tidy(c, Next(c, t, Pong))
  {
    assert forall id :: id !in PongSeen(t).timeouts;
    assert forall i :: i !in Stopped(t).intervals;
  }

  lemma PingAddsTimeout(c: Config, t: Timers, i: nat)
    requires Live(c, t) && Enabled(t, PingDue(i))
    ensures var n := Next(c, t, PingDue(i));
            && (t.paired ==> n.timeouts == t.timeouts && (i in n.intervals <==> t.known != Some(i)))
            && (!t.paired ==> (n.timeouts.Keys == {t.next} <==> t.timeouts == map[]))
  {
    assert t.next !in t.timeouts;
    if !t.paired { assert Next(c, t, PingDue(i)).timeouts.Keys == t.timeouts.Keys + {t.next}; }
  }

  // ---------- the timers in place ----------

  /**
   * The timer fields of one socket's `ConnectionState`, next to the event loop they are registered
   * with. A `Timers` value is the abstract view of both.
   */
  class ConnectionTimers {
    const config: Config
    /** The handles in the state, of timers that may have fired or been forgotten since. */
    var paired: bool
    var pingInterval: Option<nat>
    var pongTimeout: Option<nat>
    /** The event loop: its clock, the timers it is going to fire and the next free handle. */
    var now: int
    var intervals: map<nat, int>
    var pending: map<nat, int>
    var nextHandle: nat
    var closes: seq<int>
    ghost var registered: bool
    ghost var asked: Option<int>
    ghost var heard: int

    ghost function View(): Timers
      reads this
    {
      Timers(now, intervals, pingInterval, pending, pongTimeout, nextHandle, registered, paired, asked, heard, closes)
    }

    ghost predicate Valid()
      reads this
    {
      Sane(config) && Live(config, View())
    }

    constructor (config: Config)
      ensures View() == IDLE && this.config == config && (Sane(config) ==> Valid())
    {
      this.config := config;
      paired, pingInterval, pongTimeout := false, None, None;
      now, intervals, pending, nextHandle, closes := 0, map[], map[], 0, [];
      registered, asked, heard := false, None, 0;
    }

    method SetInterval(delay: int) returns (handle: nat)
      modifies this`intervals, this`nextHandle
      ensures handle == old(nextHandle) && nextHandle == handle + 1 && intervals == old(intervals)[handle := now + delay]
    {
      handle := nextHandle;
      intervals := intervals[handle := now + delay];
      nextHandle := nextHandle + 1;
    }

    method ClearInterval(handle: nat)
      modifies this`intervals
      ensures intervals == old(intervals) - {handle}
    {
      intervals := intervals - {handle};
    }

    method SetTimeout(delay: int) returns (handle: nat)
      modifies this`pending, this`nextHandle
      ensures handle == old(nextHandle) && nextHandle == handle + 1 && pending == old(pending)[handle := now + delay]
    {
      handle := nextHandle;
      pending := pending[handle := now + delay];
      nextHandle := nextHandle + 1;
    }

    /** `clearTimeout`, which does nothing for a timeout that has fired. */
    method ClearTimeout(handle: nat)
      modifies this`pending
      ensures pending == old(pending) - {handle}
    {
      pending := pending - {handle};
    }

    /**
     * Forgets the interval that was known, which goes on firing: every call makes one more live interval. From
     * timers that have not been used they come out tidy.
     */
    method StartPingInterval()
      requires Valid()
      modifies this
      ensures Valid() && View() == Next(config, old(View()), Register)
      ensures |intervals| == |old(intervals)| + 1 && old(intervals.Keys) <= intervals.Keys
      ensures old(Quiet(View())) ==> Tidy(config, View())
    {
      ghost var t := View();
      LiveStep(config, t, Register);
      RegisterAddsInterval(config, t);
      var handle := SetInterval(config.pingInterval);
      pingInterval := Some(handle);
      registered, heard := true, now;
      assert View() == Next(config, t, Register);
    }

    /** Clears the known timers only; tidy ones are all known. */
    method StopPingInterval()
      requires Valid()
      modifies this
      ensures Valid() && View() == Next(config, old(View()), Gone)
      ensures pingInterval == None && pongTimeout == None
      ensures old(Tidy(config, View())) ==> intervals == map[] && pending == map[]
    {
      ghost var t := View();
      LiveStep(config, t, Gone);
      if Tidy(config, t) { StopClears(config, t); }
      if pingInterval.Some? {
        ClearInterval(pingInterval.value);
        pingInterval := None;
      }
      if pongTimeout.Some? {
        ClearTimeout(pongTimeout.value);
        pongTimeout := None;
      }
      assert View() == Next(config, t, Gone);
    }

    /** Another socket's client takes this server: its state is marked and its timers are stopped. */
    method Take()
      requires Valid() && registered
      modifies this
      ensures Valid() && View() == Next(config, old(View()), Taken)
      ensures old(Tidy(config, View())) ==> intervals == map[] && pending == map[]
    {
      paired := true;
      StopPingInterval();
    }

    /** Clears the known timeout; of tidy ones none is left. */
    method HandlePong()
      requires Valid()
      modifies this
      ensures Valid() && View() == Next(config, old(View()), Pong)
      ensures old(Tidy(config, View())) ==> pending == map[]
    {
      ghost var t := View();
      LiveStep(config, t, Pong);
      if Tidy(config, t) { StopClears(config, t); }
      if pongTimeout.Some? {
        ClearTimeout(pongTimeout.value);
        pongTimeout := None;
      }
      asked, heard := None, now;
      assert View() == Next(config, t, Pong);
    }

    /** The ping frame and its timeout; the handle of the timeout before is forgotten. */
    method Ping()
      modifies this
      ensures var t := old(View());
              View() == t.(timeouts := t.timeouts[t.next := t.now + config.pongTimeout], handle := Some(t.next), next := t.next + 1,
                           asked := if t.asked.Some? then t.asked else Some(t.now))
    {
      asked := if asked.Some? then asked else Some(now);
      var handle := SetTimeout(config.pongTimeout);
      pongTimeout := Some(handle);
    }

    /**
     * An interval fires. On a paired socket it clears the known interval, whichever that is; on a waiting
     * one it pings and starts a timeout, and stays the only one exactly when none was pending.
     */
    method OnPingDue(interval: nat)
      requires Valid() && Enabled(View(), PingDue(interval))
      modifies this
      ensures Valid() && View() == Next(config, old(View()), PingDue(interval))
      ensures old(paired) ==> pending == old(pending) && (interval in intervals <==> old(pingInterval) != Some(interval))
      ensures !old(paired) ==> (pending.Keys == {old(nextHandle)} <==> old(pending) == map[])
    {
      ghost var t := View();
      LiveStep(config, t, PingDue(interval));
      PingAddsTimeout(config, t, interval);
      intervals := intervals[interval := now + config.pingInterval];
      if paired {
        if pingInterval.Some? {
          ClearInterval(pingInterval.value);
          pingInterval := None;
        }
        assert View() == Next(config, t, PingDue(interval));
        return;
      }
      Ping();
      assert View() == Next(config, t, PingDue(interval));
    }

    /** A timeout fires and closes the socket; a tidy one does so for an unanswered ping only, and leaves none pending. */
    method OnPongDue(handle: nat)
      requires Valid() && Enabled(View(), PongDue(handle))
      modifies this
      ensures Valid() && View() == Next(config, old(View()), PongDue(handle))
      ensures old(Tidy(config, View())) ==> pending == map[] && ClosedForSilence(config, old(View()))
    {
      LiveStep(config, View(), PongDue(handle));
      pending := pending - {handle};
      closes := closes + [now];
    }
  }

  // ---------- runs that go wrong ----------

  predicate InTime(c: Config, t: Timers) {
    t.asked.Some? ==> t.now < t.asked.value + c.pongTimeout
  }

  /** The run takes the timers to `t`; `answering` says that each ping so far has been answered in time. */
  predicate Reaches(c: Config, events: seq<Event>, controls: nat, answering: bool, t: Timers) {
    IsRun(c, events) && Controls(events) == controls && Run(c, events) == t && (answering ==> Answers(c, events))
  }

  lemma Reached(c: Config, events: seq<Event>, controls: nat, answering: bool, t: Timers, e: Event)
    requires Reaches(c, events, controls, answering, t) && Enabled(t, e)
    ensures Reaches(c, events + [e], if IsControl(e) then controls + 1 else controls,
                    answering && InTime(c, Next(c, t, e)), Next(c, t, e))
  {
    assert (events + [e])[..|events + [e]| - 1] == events;
  }

  /** One registration and the first ping. */
  function FirstPing(c: Config): seq<Event> {
    [] + [Register] + [Wait(c.pingInterval)] + [PingDue(0)]
  }

  function AfterFirstPing(c: Config): Timers {
    Timers(c.pingInterval, map[0 := 2 * c.pingInterval], Some(0), map[1 := c.pingInterval + c.pongTimeout], Some(1), 2,
           true, false, Some(c.pingInterval), 0, [])
  }

  lemma FirstPingReached(c: Config)
    requires Sane(c)
    ensures Reaches(c, FirstPing(c), 1, 0 < c.pongTimeout, AfterFirstPing(c))
  {
    var t := Timers(0, map[0 := c.pingInterval], Some(0), map[], None, 1, true, false, None, 0, []);
    assert Reaches(c, [], 0, true, IDLE);
    Reached(c, [], 0, true, IDLE, Register);
    Reached(c, [] + [Register], 1, true, t, Wait(c.pingInterval));
    Reached(c, [] + [Register] + [Wait(c.pingInterval)], 1, true, t.(now := c.pingInterval), PingDue(0));
  }

  function SecondPing(c: Config): seq<Event> {
    FirstPing(c) + [Wait(2 * c.pingInterval)] + [PingDue(0)]
  }

  function AfterSecondPing(c: Config): Timers {
    Timers(2 * c.pingInterval, map[0 := 3 * c.pingInterval], Some(0),
           map[1 := c.pingInterval + c.pongTimeout, 2 := 2 * c.pingInterval + c.pongTimeout], Some(2), 3,
           true, false, Some(c.pingInterval), 0, [])
  }

  lemma SecondPingReached(c: Config)
    requires Sane(c) && c.pingInterval <= c.pongTimeout
    ensures Reaches(c, SecondPing(c), 1, c.pingInterval < c.pongTimeout, AfterSecondPing(c))
  {
    var t := AfterFirstPing(c).(now := 2 * c.pingInterval);
    FirstPingReached(c);
    Reached(c, FirstPing(c), 1, 0 < c.pongTimeout, AfterFirstPing(c), Wait(2 * c.pingInterval));
    assert AfterSecondPing(c) == Next(c, t, PingDue(0));
    Reached(c, FirstPing(c) + [Wait(2 * c.pingInterval)], 1, c.pingInterval < c.pongTimeout, t, PingDue(0));
  }

  /** A second ping before the first pong, then the socket is taken by a client. */
  function Overlapping(c: Config): seq<Event> {
    SecondPing(c) + [Pong] + [Taken]
  }

  function AfterOverlap(c: Config): Timers {
    Timers(2 * c.pingInterval, map[], None, map[1 := c.pingInterval + c.pongTimeout], None, 3, true, true, None, 2 * c.pingInterval, [])
  }

  lemma PongLeavesFirst(c: Config)
    ensures Next(c, Next(c, AfterSecondPing(c), Pong), Taken) == AfterOverlap(c)
  {
    assert AfterSecondPing(c).timeouts - {2} == map[1 := c.pingInterval + c.pongTimeout];
    assert AfterSecondPing(c).intervals - {0} == map[];
  }

  /** With a timeout that is not shorter than the interval, the first timeout is left on the paired server. */
  lemma OverlapLeavesTimer(c: Config)
    requires Sane(c) && c.pingInterval <= c.pongTimeout
    ensures Reaches(c, Overlapping(c), 1, c.pingInterval < c.pongTimeout, AfterOverlap(c))
  {
    SecondPingReached(c);
    Reached(c, SecondPing(c), 1, c.pingInterval < c.pongTimeout, AfterSecondPing(c), Pong);
    Reached(c, SecondPing(c) + [Pong], 1, c.pingInterval < c.pongTimeout, Next(c, AfterSecondPing(c), Pong), Taken);
    PongLeavesFirst(c);
  }

  /** A waiting socket that succeeds as a client, too, is paired with its interval and its timeout running. */
  lemma ClaimKeepsTimers(c: Config)
    requires Sane(c)
    ensures RunWithin(c, 2, FirstPing(c) + [Claim])
    ensures var t := Run(c, FirstPing(c) + [Claim]);
            t.paired && t.intervals == map[0 := 2 * c.pingInterval] && t.timeouts == map[1 := c.pingInterval + c.pongTimeout]
  {
    FirstPingReached(c);
    Reached(c, FirstPing(c), 1, 0 < c.pongTimeout, AfterFirstPing(c), Claim);
  }

  /** Two registrations `gap` apart. */
  function Doubled(c: Config, gap: int): seq<Event> {
    [] + [Register] + [Wait(gap)] + [Register] + [Wait(c.pingInterval)]
  }

  function AfterDoubled(c: Config, gap: int): Timers {
    Timers(c.pingInterval, map[0 := c.pingInterval, 1 := gap + c.pingInterval], Some(1), map[], None, 2, true, false, None, gap, [])
  }

  lemma DoubledReached(c: Config, gap: int)
    requires Sane(c) && 0 <= gap <= c.pingInterval
    ensures Reaches(c, Doubled(c, gap), 2, true, AfterDoubled(c, gap))
  {
    var t := Timers(0, map[0 := c.pingInterval], Some(0), map[], None, 1, true, false, None, 0, []);
    assert Reaches(c, [], 0, true, IDLE);
    Reached(c, [], 0, true, IDLE, Register);
    Reached(c, [] + [Register], 1, true, t, Wait(gap));
    Reached(c, [] + [Register] + [Wait(gap)], 1, true, t.(now := gap), Register);
    Reached(c, [] + [Register] + [Wait(gap)] + [Register], 2, true, AfterDoubled(c, gap).(now := gap), Wait(c.pingInterval));
  }

  function BothPinged(c: Config, gap: int): seq<Event> {
    Doubled(c, gap) + [PingDue(0)] + [Wait(gap + c.pingInterval)] + [PingDue(1)]
  }

  function AfterOnePinged(c: Config, gap: int): Timers {
    Timers(c.pingInterval, map[0 := 2 * c.pingInterval, 1 := gap + c.pingInterval], Some(1),
           map[2 := c.pingInterval + c.pongTimeout], Some(2), 3, true, false, Some(c.pingInterval), gap, [])
  }

  function AfterBothPinged(c: Config, gap: int): Timers {
    Timers(gap + c.pingInterval, map[0 := 2 * c.pingInterval, 1 := gap + 2 * c.pingInterval], Some(1),
           map[2 := c.pingInterval + c.pongTimeout, 3 := gap + c.pingInterval + c.pongTimeout], Some(3), 4,
           true, false, Some(c.pingInterval), gap, [])
  }

  lemma BothPing(c: Config, gap: int)
    ensures Next(c, AfterDoubled(c, gap), PingDue(0)) == AfterOnePinged(c, gap)
    ensures Next(c, AfterOnePinged(c, gap).(now := gap + c.pingInterval), PingDue(1)) == AfterBothPinged(c, gap)
  {
  }

  lemma BothPingedReached(c: Config, gap: int)
    requires Sane(c) && 0 <= gap <= c.pingInterval && gap <= c.pongTimeout
    ensures Reaches(c, BothPinged(c, gap), 2, gap < c.pongTimeout, AfterBothPinged(c, gap))
  {
    var r, t := Doubled(c, gap), AfterOnePinged(c, gap);
    DoubledReached(c, gap);
    BothPing(c, gap);
    Reached(c, r, 2, true, AfterDoubled(c, gap), PingDue(0));
    Reached(c, r + [PingDue(0)], 2, 0 < c.pongTimeout, t, Wait(gap + c.pingInterval));
    Reached(c, r + [PingDue(0)] + [Wait(gap + c.pingInterval)], 2, gap < c.pongTimeout, t.(now := gap + c.pingInterval), PingDue(1));
  }

  /** Both intervals ping, and each ping is answered by a pong of its own. */
  function DoublePings(c: Config, gap: int): seq<Event> {
    BothPinged(c, gap) + [Pong] + [Pong]
  }

  function AfterDoublePings(c: Config, gap: int): Timers {
    Timers(gap + c.pingInterval, map[0 := 2 * c.pingInterval, 1 := gap + 2 * c.pingInterval], Some(1),
           map[2 := c.pingInterval + c.pongTimeout], None, 4, true, false, None, gap + c.pingInterval, [])
  }

  lemma DoublePingsReached(c: Config, gap: int)
    requires Sane(c) && 0 <= gap <= c.pingInterval && gap <= c.pongTimeout
    ensures Reaches(c, DoublePings(c, gap), 2, gap < c.pongTimeout, AfterDoublePings(c, gap))
  {
    BothPingedReached(c, gap);
    Reached(c, BothPinged(c, gap), 2, gap < c.pongTimeout, AfterBothPinged(c, gap), Pong);
    assert AfterBothPinged(c, gap).timeouts - {3} == map[2 := c.pingInterval + c.pongTimeout];
    assert Next(c, AfterBothPinged(c, gap), Pong) == AfterDoublePings(c, gap);
    Reached(c, BothPinged(c, gap) + [Pong], 2, gap < c.pongTimeout, AfterDoublePings(c, gap), Pong);
  }

  // ---------- the exact conditions ----------

  /** At most one timeout is pending, and a paired socket has no timers. */
  predicate Safe(t: Timers) {
    |t.timeouts| <= 1 && (t.paired ==> t.timeouts == map[] && t.intervals == map[])
  }

  lemma TidyIsSafe(c: Config, t: Timers)
    requires Tidy(c, t)
    ensures Safe(t)
  {
    assert |t.timeouts| == |t.timeouts.Keys|;
    if id :| id in t.timeouts {
      assert t.timeouts.Keys == {id};
    }
  }

  /** Up to `n` control messages of one socket do no harm to its timers. */
  predicate TimersHold(c: Config, n: nat) {
    n == 0 || (n == 1 && c.pongTimeout < c.pingInterval)
  }

  lemma QuietIsTidy(c: Config, t: Timers)
    requires Quiet(t)
    ensures Tidy(c, t) && Safe(t)
  {
  }

  lemma HeldRun(c: Config, n: nat, events: seq<Event>)
    requires Sane(c) && TimersHold(c, n) && RunWithin(c, n, events)
    ensures Live(c, Run(c, events)) && Tidy(c, Run(c, events))
  {
    if n == 0 {
      QuietRun(c, events);
      QuietIsTidy(c, Run(c, events));
      WatchedRun(c, events);
    } else {
      TidyRun(c, events);
    }
  }

  /** What is left of the two registrations when the socket is taken. */
  lemma DoubledIsUnsafe(c: Config)
    requires Sane(c)
    ensures RunWithin(c, 2, DoublePings(c, 0) + [Taken])
    ensures var t := Run(c, DoublePings(c, 0) + [Taken]);
            t.paired && t.asked == None && 2 in t.timeouts && t.timeouts[2] == c.pingInterval + c.pongTimeout && !Safe(t)
  {
    DoublePingsReached(c, 0);
    Reached(c, DoublePings(c, 0), 2, 0 < c.pongTimeout, AfterDoublePings(c, 0), Taken);
    assert 2 in Next(c, AfterDoublePings(c, 0), Taken).timeouts;
  }

  /**
   * Exactly when the keepalive is safe: on every run with at most `n` control messages of the socket at
   * most one timeout is pending and a paired socket has no timers, if and only if there are none, or at most
   * one and the timeout is shorter than the interval.
   */
  lemma SafeIff(c: Config, n: nat)
    requires Sane(c)
    ensures (forall events | RunWithin(c, n, events) :: Safe(Run(c, events))) <==> TimersHold(c, n)
  {
    if TimersHold(c, n) {
      forall events | RunWithin(c, n, events) ensures Safe(Run(c, events)) {
        HeldRun(c, n, events);
        TidyIsSafe(c, Run(c, events));
      }
    } else if n == 1 {
      OverlapLeavesTimer(c);
      assert RunWithin(c, n, Overlapping(c)) && 1 in AfterOverlap(c).timeouts;
    } else {
      DoubledIsUnsafe(c);
      assert RunWithin(c, n, DoublePings(c, 0) + [Taken]);
    }
  }

  predicate OnlySilenceCloses(c: Config, events: seq<Event>) {
    forall id | id in Run(c, events).timeouts && Run(c, events).timeouts[id] == Run(c, events).now :: ClosedForSilence(c, Run(c, events))
  }

  lemma DoubledClosesUnasked(c: Config)
    requires Sane(c) && c.pongTimeout <= c.pingInterval
    ensures var events := DoublePings(c, 0) + [Wait(c.pingInterval + c.pongTimeout)];
            RunWithin(c, 2, events) && !OnlySilenceCloses(c, events)
  {
    DoublePingsReached(c, 0);
    Reached(c, DoublePings(c, 0), 2, 0 < c.pongTimeout, AfterDoublePings(c, 0), Wait(c.pingInterval + c.pongTimeout));
    assert 2 in AfterDoublePings(c, 0).timeouts;
  }

  lemma OverlapClosesPaired(c: Config)
    requires Sane(c) && c.pingInterval <= c.pongTimeout
    ensures var events := Overlapping(c) + [Wait(c.pingInterval + c.pongTimeout)];
            RunWithin(c, 1, events) && !OnlySilenceCloses(c, events)
  {
    OverlapLeavesTimer(c);
    Reached(c, Overlapping(c), 1, c.pingInterval < c.pongTimeout, AfterOverlap(c), Wait(c.pingInterval + c.pongTimeout));
    assert 1 in AfterOverlap(c).timeouts;
  }

  /**
   * Under exactly the same condition the keepalive closes for silence alone: on all those runs a timeout that
   * fires finds an unpaired socket and a ping that went unanswered for the whole timeout.
   */
  lemma OnlySilenceClosesIff(c: Config, n: nat)
    requires Sane(c)
    ensures (forall events | RunWithin(c, n, events) :: OnlySilenceCloses(c, events)) <==> TimersHold(c, n)
  {
    if TimersHold(c, n) {
      forall events | RunWithin(c, n, events) ensures OnlySilenceCloses(c, events) {
        HeldRun(c, n, events);
      }
    } else if c.pingInterval <= c.pongTimeout {
      OverlapClosesPaired(c);
      assert RunWithin(c, n, Overlapping(c) + [Wait(c.pingInterval + c.pongTimeout)]);
    } else {
      DoubledClosesUnasked(c);
      assert RunWithin(c, n, DoublePings(c, 0) + [Wait(c.pingInterval + c.pongTimeout)]);
    }
  }

  /** A socket that registers twice, `gap` apart, and answers each ping at once is closed all the same. */
  lemma AnsweringTwiceIsClosed(c: Config, gap: int)
    requires Sane(c) && 0 <= gap < c.pongTimeout <= c.pingInterval
    ensures var events := DoublePings(c, gap) + [Wait(c.pingInterval + c.pongTimeout)] + [PongDue(2)];
            && RunWithin(c, 2, events) && Answers(c, events)
            && Run(c, events).closes == [c.pingInterval + c.pongTimeout] && !Run(c, events).paired
  {
    var t := AfterDoublePings(c, gap);
    DoublePingsReached(c, gap);
    Reached(c, DoublePings(c, gap), 2, true, t, Wait(c.pingInterval + c.pongTimeout));
    Reached(c, DoublePings(c, gap) + [Wait(c.pingInterval + c.pongTimeout)], 2, true, t.(now := c.pingInterval + c.pongTimeout), PongDue(2));
  }

  /** With a longer timeout a paired server that answered each ping in time is closed. */
  lemma AnsweringLateIsClosed(c: Config)
    requires Sane(c) && c.pingInterval < c.pongTimeout
    ensures var events := Overlapping(c) + [Wait(c.pingInterval + c.pongTimeout)] + [PongDue(1)];
            && RunWithin(c, 1, events) && Answers(c, events)
            && Run(c, events).closes == [c.pingInterval + c.pongTimeout] && Run(c, events).paired
  {
    var t := AfterOverlap(c);
    OverlapLeavesTimer(c);
    Reached(c, Overlapping(c), 1, true, t, Wait(c.pingInterval + c.pongTimeout));
    Reached(c, Overlapping(c) + [Wait(c.pingInterval + c.pongTimeout)], 1, true, t.(now := c.pingInterval + c.pongTimeout), PongDue(1));
  }

  /** With no time to answer in, answering in time means never to be asked. */
  lemma {:induction false} NeverAsked(c: Config, events: seq<Event>)
    requires c.pongTimeout == 0 && Sane(c) && IsRun(c, events) && Answers(c, events)
    ensures Live(c, Run(c, events)) && Run(c, events).timeouts == map[] && Run(c, events).closes == []
  {
    if events != [] {
      NeverAsked(c, events[..|events| - 1]);
      LiveStep(c, Run(c, events[..|events| - 1]), events[|events| - 1]);
    }
  }

  /**
   * Exactly when a socket that answers each ping in time is never closed by the keepalive, on any run
   * with at most `n` control messages: when there are none, or at most one and the timeout does not exceed the
   * interval. (With a timeout of 0 no ping can be answered in time.)
   */
  lemma AnsweringIsNeverClosedIff(c: Config, n: nat)
    requires Sane(c)
    ensures (forall events | RunWithin(c, n, events) && Answers(c, events) :: Run(c, events).closes == [])
       <==> n == 0 || (n == 1 && c.pongTimeout <= c.pingInterval) || c.pongTimeout == 0
  {
    if n == 0 || (n == 1 && c.pongTimeout <= c.pingInterval) || c.pongTimeout == 0 {
      forall events | RunWithin(c, n, events) && Answers(c, events) ensures Run(c, events).closes == [] {
        if n == 0 { QuietRun(c, events); } else if c.pongTimeout == 0 { NeverAsked(c, events); } else { AnsweredRun(c, events); }
      }
    } else if c.pingInterval < c.pongTimeout {
      AnsweringLateIsClosed(c);
      assert RunWithin(c, n, Overlapping(c) + [Wait(c.pingInterval + c.pongTimeout)] + [PongDue(1)]);
    } else {
      AnsweringTwiceIsClosed(c, 0);
      assert RunWithin(c, n, DoublePings(c, 0) + [Wait(c.pingInterval + c.pongTimeout)] + [PongDue(2)]);
    }
  }
}
