/**
 * What forwarding delivers over whole runs of the relay without grants: each socket receives
 * exactly its partner's frames, in order and with their type.
 */
module Forwarding {
  import opened Options
  import opened RelayMaps
  import opened Registry
  import opened Connections
  import opened Handler
  import opened OpenRelay

  /** What of a frame crosses the relay: its bytes and whether it is binary. */
  type Content = (Payload, bool)

  /** The frames handed to a socket, in order. */
  function Arrived(sent: seq<Delivery>, target: Socket): seq<Content> {
    if sent == [] then []
    else
      var last := sent[|sent| - 1];
      Arrived(sent[..|sent| - 1], target) + if last.target == target then [(last.data, last.isBinary)] else []
  }

  /** The frames received from a socket since the pair `p` was last absent. */
  function FramesSince(rows: Rows, events: seq<Event>, p: Pair, source: Socket): seq<Content> {
    if events == [] || p !in Run(rows, events[..|events| - 1]).m.pairs then []
    else
      var last := events[|events| - 1];
      FramesSince(rows, events[..|events| - 1], p, source)
      + if last.Received? && last.ws == source then [(last.frame.data, last.frame.isBinary)] else []
  }

  predicate Couples(p: Pair, d: Delivery) {
    (d.source == p.server && d.target == p.client) || (d.source == p.client && d.target == p.server)
  }

  predicate CoupledIn(formed: seq<Pair>, d: Delivery) {
    exists p | p in formed :: Couples(p, d)
  }

  lemma LivePairWasFormed(h: Host, p: Pair)
    requires HistoryAgrees(h) && p in h.m.pairs
    ensures p in h.formed
  {
    assert multiset(h.m.pairs)[p] == 1;
    assert multiset(h.formed)[p] > 0;
  }

  lemma ForwardCouples(h: Host, ws: Socket)
    requires Invariant(h) && ws in h.m.pairLookup
    ensures forall data, isBinary :: CoupledIn(h.formed, Delivery(ws, Partner(h.m, ws), data, isBinary))
  {
    var p := h.m.pairLookup[ws];
    assert p in h.m.pairs && EndOf(p, ws);
    LivePairWasFormed(h, p);
    forall data, isBinary ensures CoupledIn(h.formed, Delivery(ws, Partner(h.m, ws), data, isBinary)) {
      assert Couples(p, Delivery(ws, Partner(h.m, ws), data, isBinary));
    }
  }

  lemma FormedGrows(h: Host, e: Event)
    ensures h.formed <= Step(h, e).formed
    ensures Step(h, e).sent == h.sent
         || (e.Received? && e.ws in h.m.pairLookup
             && Step(h, e).sent == h.sent + [Delivery(e.ws, Partner(h.m, e.ws), e.frame.data, e.frame.isBinary)])
  {
  }

  /** Every delivery went from one end of a formed pair to the other. */
  lemma {:induction false} DeliveredWithinPairs(rows: Rows, events: seq<Event>)
    requires Lawful(rows, events) && AllFree(rows, events)
    ensures forall d | d in Run(rows, events).sent :: CoupledIn(Run(rows, events).formed, d)
  {
    if events != [] {
      var front, last := events[..|events| - 1], events[|events| - 1];
      var h, n := Run(rows, front), Run(rows, events);
      DeliveredWithinPairs(rows, front);
      RunInvariant(rows, front);
      FormedGrows(h, last);
      forall d | CoupledIn(h.formed, d) ensures CoupledIn(n.formed, d) {
        var p :| p in h.formed && Couples(p, d);
        assert p in n.formed;
      }
      if n.sent != h.sent {
        ForwardCouples(h, last.ws);
      }
    }
  }

  lemma {:induction false} NothingArrived(sent: seq<Delivery>, target: Socket)
    requires forall d | d in sent :: d.target != target
    ensures Arrived(sent, target) == []
  {
    if sent != [] {
      NothingArrived(sent[..|sent| - 1], target);
    }
  }

  /** A socket that has never been paired has received nothing. */
  lemma UnspentReceivedNothing(rows: Rows, events: seq<Event>, ws: Socket)
    requires Lawful(rows, events) && AllFree(rows, events) && !Spent(Run(rows, events), ws)
    ensures Arrived(Run(rows, events).sent, ws) == []
  {
    RunInvariant(rows, events);
    DeliveredWithinPairs(rows, events);
    var h := Run(rows, events);
    forall d | d in h.sent ensures d.target != ws {
      assert CoupledIn(h.formed, d);
      var p :| p in h.formed && Couples(p, d);
      assert Spent(h, p.server) && Spent(h, p.client);
    }
    NothingArrived(h.sent, ws);
  }

  /** A pair that has just appeared was formed by this step, from two sockets never paired before. */
  lemma NewPairIsFresh(h: Host, e: Event, p: Pair)
    requires Invariant(h) && e.ws !in h.closed && Free(h, e)
    requires p !in h.m.pairs && p in Step(h, e).m.pairs
    ensures !Spent(h, p.server) && !Spent(h, p.client) && Step(h, e).sent == h.sent
  {
    assert e.Received? && Controls(h, e);
    match e.frame.message
    case ClientConnect(u, _) =>
      assert p == Pair(h.m.waiting[u], e.ws);
    case ServerRegister(_, _, _, _) =>
    case Other =>
  }

  lemma ArrivedExtends(sent: seq<Delivery>, d: Delivery, target: Socket)
    ensures Arrived(sent + [d], target)
         == Arrived(sent, target) + if d.target == target then [(d.data, d.isBinary)] else []
  {
    assert (sent + [d])[..|sent|] == sent;
  }

  lemma NothingSent(h: Host, e: Event)
    requires !(e.Received? && ConnOf(h, e.ws).paired && e.ws in h.m.pairLookup)
    ensures Step(h, e).sent == h.sent
  {
  }

  /** One step hands an end of a live pair exactly what its partner sent in that step. */
  lemma StepDelivers(h: Host, e: Event, p: Pair, source: Socket)
    requires Invariant(h) && p in h.m.pairs && EndOf(p, source)
    ensures Arrived(Step(h, e).sent, Partner(h.m, source))
         == Arrived(h.sent, Partner(h.m, source))
            + if e.Received? && e.ws == source then [(e.frame.data, e.frame.isBinary)] else []
  {
    assert EndsAt(h.m, p, source) by {
      assert EndsAt(h.m, p, p.server) && EndsAt(h.m, p, p.client);
    }
    if e.Received? && ConnOf(h, e.ws).paired && e.ws in h.m.pairLookup {
      var target := Partner(h.m, e.ws);
      PartnerInvolution(h.m, e.ws);
      PartnerInvolution(h.m, source);
      ArrivedExtends(h.sent, Delivery(e.ws, target, e.frame.data, e.frame.isBinary), Partner(h.m, source));
      assert target == Partner(h.m, source) ==> e.ws == source;
    } else {
      NothingSent(h, e);
      assert h.conns[source].paired;
    }
  }

  /**
   * On every run, for each pair that is still up, what each end has been handed is precisely the
   * sequence of frames the other end has sent since the pair was formed: none lost, none repeated,
   * none out of order, none with its type changed, and none from anybody else.
   */
  lemma {:induction false} LivePairForwardsEverything(rows: Rows, events: seq<Event>, p: Pair)
    requires Lawful(rows, events) && AllFree(rows, events) && p in Run(rows, events).m.pairs
    ensures Arrived(Run(rows, events).sent, p.client) == FramesSince(rows, events, p, p.server)
    ensures Arrived(Run(rows, events).sent, p.server) == FramesSince(rows, events, p, p.client)
  {
    var front, last := events[..|events| - 1], events[|events| - 1];
    var h := Run(rows, front);
    RunInvariant(rows, front);
    if p in h.m.pairs {
      LivePairForwardsEverything(rows, front, p);
      StepDelivers(h, last, p, p.server);
      StepDelivers(h, last, p, p.client);
      assert EndsAt(h.m, p, p.server) && EndsAt(h.m, p, p.client);
    } else {
      NewPairIsFresh(h, last, p);
      UnspentReceivedNothing(rows, front, p.server);
      UnspentReceivedNothing(rows, front, p.client);
    }
  }

  /** After a pair is gone its ends are handed nothing more. */
  lemma DeadPairIsSilent(rows: Rows, events: seq<Event>, e: Event, p: Pair, ws: Socket)
    requires Lawful(rows, events + [e]) && AllFree(rows, events + [e])
    requires p in Run(rows, events).formed && p !in Run(rows, events).m.pairs && EndOf(p, ws)
    ensures Arrived(Run(rows, events + [e]).sent, ws) == Arrived(Run(rows, events).sent, ws)
  {
    assert (events + [e])[..|events|] == events;
    RunInvariant(rows, events);
    var h := Run(rows, events);
    if e.Received? && ConnOf(h, e.ws).paired && e.ws in h.m.pairLookup {
      var q, target := h.m.pairLookup[e.ws], Partner(h.m, e.ws);
      assert q in h.m.pairs && EndOf(q, target);
      LivePairWasFormed(h, q);
      FormedShareNothing(h.formed, p, q, ws);
      ArrivedExtends(h.sent, Delivery(e.ws, target, e.frame.data, e.frame.isBinary), ws);
    }
  }

  lemma FormedShareNothing(formed: seq<Pair>, p: Pair, q: Pair, ws: Socket)
    requires FormedApart(formed) && p in formed && q in formed && p != q && EndOf(p, ws)
    ensures !EndOf(q, ws)
  {
    var i :| 0 <= i < |formed| && formed[i] == p;
    var j :| 0 <= j < |formed| && formed[j] == q;
    if i < j {
      assert !EndOf(formed[i], formed[j].server) && !EndOf(formed[i], formed[j].client);
    } else {
      assert !EndOf(formed[j], formed[i].server) && !EndOf(formed[j], formed[i].client);
    }
  }
}
