/**
 * Uploads over a WebSocket: packages/client/src/api/upload.ts. `uploadChunks` is its event handlers; a
 * run is any interleaving of socket events, chunks from the iterator and aborts. The socket behaves
 * as the WebSockets standard says: `send` is dropped once the socket is closing, `open` comes only to
 * a connecting socket and messages only to an open one.
 */
module Upload {
  import opened Options
  import opened Sequences
  import opened Unicode
  import opened Utf8Streams

  datatype ReadyState = NotCreated | Connecting | Open | Closing | Closed

  datatype Packet = Start | Chunk(data: seq<Byte>) | End | Cancel

  datatype Reason = Aborted | ServerError(message: string, code: Option<string>) | SocketError
                  | SocketClosed(reason: string) | IteratorFailed(error: string)

  /** How the promise was settled. */
  datatype Outcome = Resolved(file: string) | Rejected(reason: Reason)

  datatype Message = Progress(bytesReceived: nat) | Complete(file: string) | Failure(message: string, code: Option<string>)
                   | Unreadable

  /** The sending coroutine: before `open`, waiting for the chunk with a number, or over. */
  datatype Sender = Unstarted | Sending(next: nat) | Finished

  datatype Event =
    | Opened
    | Yielded
    | Threw(error: string)
    | AbortSignal
    | Received(message: Message)
    | PeerCloses
    | ErrorEvent
    | CloseEvent(reason: string)

  datatype State = State(ws: ReadyState, aborted: bool, resolved: bool, listening: bool, sender: Sender,
                         wire: seq<Packet>, progress: seq<nat>, outcome: Option<Outcome>)

  /** Settling a promise again does nothing. */
  function FirstOf(outcome: Option<Outcome>, next: Outcome): Option<Outcome> {
    if outcome == None then Some(next) else outcome
  }

  function CloseCalled(ws: ReadyState): ReadyState {
    if ws == Connecting || ws == Open then Closing else ws
  }

  /** `reason || "Connection closed unexpectedly"`. */
  function ReasonOr(reason: string): string {
    if reason == "" then "Connection closed unexpectedly" else reason
  }

  /** One run of `uploadChunks`, with the chunks its iterator yields when it does not throw. */
  class Uploader {
    const chunks: seq<seq<Byte>>
    var ws: ReadyState
    var aborted: bool
    var resolved: bool
    /** Whether `abortHandler` is still registered with the signal. */
    var listening: bool
    var sender: Sender
    var wire: seq<Packet>
    var progress: seq<nat>
    var outcome: Option<Outcome>

    function Now(): State
      reads this
    {
      State(ws, aborted, resolved, listening, sender, wire, progress, outcome)
    }

    constructor (chunks: seq<seq<Byte>>, alreadyAborted: bool)
      ensures this.chunks == chunks && Now() == Begin(alreadyAborted)
    {
      this.chunks := chunks;
      ws := if alreadyAborted then NotCreated else Connecting;
      aborted, resolved, listening := false, false, !alreadyAborted;
      sender, wire, progress := Unstarted, [], [];
      outcome := if alreadyAborted then Some(Rejected(Aborted)) else None;
    }

    /** `ws.send`, which throws while connecting and is dropped when closing; both callers carry on. */
    method Send(packet: Packet)
      modifies this`wire
      ensures wire == if ws == Open then old(wire) + [packet] else old(wire)
    {
      if ws == Open {
        wire := wire + [packet];
      }
    }

    method Settle(next: Outcome)
      modifies this`outcome
      ensures outcome == FirstOf(old(outcome), next)
    {
      if outcome == None {
        outcome := Some(next);
      }
    }

    method AbortHandler()
      modifies this
      ensures Now() == AfterAbort(old(Now()))
    {
      if resolved {
        return;
      }
      aborted := true;
      Send(Cancel);
      ws := CloseCalled(ws);
      Settle(Rejected(Aborted));
    }

    method MessageHandler(message: Message)
      modifies this
      ensures Now() == AfterMessage(old(Now()), message)
    {
      match message {
        case Progress(bytesReceived) =>
          progress := progress + [bytesReceived];
        case Complete(file) =>
          resolved, listening := true, false;
          ws := CloseCalled(ws);
          Settle(Resolved(file));
        case Failure(text, code) =>
          resolved, listening := true, false;
          ws := CloseCalled(ws);
          Settle(Rejected(ServerError(text, code)));
        case Unreadable =>
      }
    }

    method ErrorHandler()
      modifies this
      ensures Now() == AfterError(old(Now()))
    {
      if resolved {
        return;
      }
      resolved, listening := true, false;
      Settle(Rejected(SocketError));
    }

    method CloseHandler(reason: string)
      modifies this
      ensures Now() == AfterClose(old(Now()), reason)
    {
      if resolved {
        return;
      }
      listening := false;
      if !aborted {
        resolved := true;
        Settle(Rejected(SocketClosed(ReasonOr(reason))));
      }
    }

    /** `openHandler` up to its first await. */
    method OpenHandler()
      modifies this
      ensures Now() == old(Now()).(sender := Sending(0), wire := if ws == Open then old(wire) + [Start] else old(wire))
    {
      Send(Start);
      sender := Sending(0);
    }

    /** The loop goes on with the next chunk, or is over and `end` is sent. */
    method Resume()
      requires sender.Sending?
      modifies this
      ensures Now() == AfterYield(chunks, old(Now()))
    {
      if sender.next < |chunks| {
        if aborted {
          sender := Finished;
          return;
        }
        Send(Chunk(chunks[sender.next]));
        sender := Sending(sender.next + 1);
      } else {
        if !aborted {
          Send(End);
        }
        sender := Finished;
      }
    }

    /** The `catch` around the loop. */
    method IteratorThrew(error: string)
      modifies this
      ensures Now() == AfterThrow(old(Now()), error)
    {
      sender := Finished;
      if resolved {
        return;
      }
      resolved, listening := true, false;
      ws := CloseCalled(ws);
      Settle(Rejected(IteratorFailed(error)));
    }

    /** The event loop hands over one event. */
    method Dispatch(e: Event)
      modifies this
      ensures Now() == Step(chunks, old(Now()), e)
    {
      if !Possible(Now(), e) {
        return;
      }
      match e {
        case Opened =>
          ws := Open;
          OpenHandler();
        case Yielded => Resume();
        case Threw(error) => IteratorThrew(error);
        case AbortSignal => AbortHandler();
        case Received(message) => MessageHandler(message);
        case PeerCloses => ws := CloseCalled(ws);
        case ErrorEvent =>
          ws := Closed;
          ErrorHandler();
        case CloseEvent(reason) =>
          ws := Closed;
          CloseHandler(reason);
      }
    }
  }

  // ---------- the handlers as functions ----------

  function Begin(alreadyAborted: bool): State {
    if alreadyAborted then State(NotCreated, false, false, false, Unstarted, [], [], Some(Rejected(Aborted)))
    else State(Connecting, false, false, true, Unstarted, [], [], None)
  }

  function Put(s: State, packet: Packet): State {
    if s.ws == Open then s.(wire := s.wire + [packet]) else s
  }

  function AfterAbort(s: State): State {
    if s.resolved then s
    else
      Put(s, Cancel).(aborted := true, ws := CloseCalled(s.ws), outcome := FirstOf(s.outcome, Rejected(Aborted)))
  }

  function Over(s: State, outcome: Outcome): State {
    s.(resolved := true, listening := false, outcome := FirstOf(s.outcome, outcome))
  }

  function AfterMessage(s: State, message: Message): State {
    match message
    case Progress(n) => s.(progress := s.progress + [n])
    case Complete(file) => Over(s, Resolved(file)).(ws := CloseCalled(s.ws))
    case Failure(text, code) => Over(s, Rejected(ServerError(text, code))).(ws := CloseCalled(s.ws))
    case Unreadable => s
  }

  function AfterError(s: State): State {
    if s.resolved then s else Over(s, Rejected(SocketError))
  }

  function AfterClose(s: State, reason: string): State {
    if s.resolved then s
    else if s.aborted then s.(listening := false)
    else Over(s, Rejected(SocketClosed(ReasonOr(reason))))
  }

  function AfterYield(chunks: seq<seq<Byte>>, s: State): State
    requires s.sender.Sending?
  {
    var k := s.sender.next;
    if k < |chunks| then
      if s.aborted then s.(sender := Finished) else Put(s, Chunk(chunks[k])).(sender := Sending(k + 1))
    else (if s.aborted then s else Put(s, End)).(sender := Finished)
  }

  function AfterThrow(s: State, error: string): State {
    if s.resolved then s.(sender := Finished)
    else Over(s, Rejected(IteratorFailed(error))).(sender := Finished, ws := CloseCalled(s.ws))
  }

  /** When the platform delivers an event at all. */
  predicate Possible(s: State, e: Event) {
    match e
    case Opened => s.ws == Connecting
    case Yielded => s.sender.Sending?
    case Threw(_) => s.sender.Sending?
    case AbortSignal => s.listening
    case Received(_) => s.ws == Open
    case PeerCloses => s.ws == Open
    case ErrorEvent => s.ws != NotCreated && s.ws != Closed
    case CloseEvent(_) => s.ws != NotCreated
  }

  function Step(chunks: seq<seq<Byte>>, s: State, e: Event): State {
    if !Possible(s, e) then s
    else
      match e
      case Opened => Put(s.(ws := Open), Start).(sender := Sending(0))
      case Yielded => AfterYield(chunks, s)
      case Threw(error) => AfterThrow(s, error)
      case AbortSignal => AfterAbort(s)
      case Received(message) => AfterMessage(s, message)
      case PeerCloses => s.(ws := CloseCalled(s.ws))
      case ErrorEvent => AfterError(s.(ws := Closed))
      case CloseEvent(reason) => AfterClose(s.(ws := Closed), reason)
  }

  function Run(chunks: seq<seq<Byte>>, alreadyAborted: bool, events: seq<Event>): State {
    if events == [] then Begin(alreadyAborted)
    else Step(chunks, Run(chunks, alreadyAborted, events[..|events| - 1]), events[|events| - 1])
  }

  // ---------- what holds on every run ----------

  /** The whole conversation. */
  function Script(chunks: seq<seq<Byte>>): seq<Packet> {
    [Start] + seq(|chunks|, k requires 0 <= k < |chunks| => Chunk(chunks[k])) + [End]
  }

  function Position(chunks: seq<seq<Byte>>, sender: Sender): nat {
    match sender
    case Unstarted => 0
    case Sending(k) => 1 + k
    case Finished => |chunks| + 2
  }

  predicate IsPrefixOf(wire: seq<Packet>, script: seq<Packet>) {
    wire <= script
  }

  /** The beginning of the conversation, and behind it at most one `cancel`. */
  predicate WellFormed(chunks: seq<seq<Byte>>, wire: seq<Packet>) {
    || IsPrefixOf(wire, Script(chunks))
    || (wire != [] && wire[|wire| - 1] == Cancel && IsPrefixOf(wire[..|wire| - 1], Script(chunks)))
  }

  ghost predicate Invariant(chunks: seq<seq<Byte>>, s: State) {
    && (s.sender.Sending? ==> s.sender.next <= |chunks|)
    && (s.ws == Open ==> !s.sender.Unstarted? && s.wire == Script(chunks)[..Position(chunks, s.sender)])
    && (s.ws == Connecting || s.ws == NotCreated ==> s.sender == Unstarted && s.wire == [])
    && WellFormed(chunks, s.wire)
    && (Cancel in s.wire ==> s.aborted)
    && (s.aborted || s.resolved ==> s.ws == Closing || s.ws == Closed)
    && (s.resolved ==> !s.listening)
    && (s.ws == Open || s.ws == Connecting ==> s.listening)
    && (s.ws != NotCreated ==> (s.outcome.Some? <==> s.aborted || s.resolved) && (s.ws == Closed ==> s.outcome.Some?))
    && (s.ws == NotCreated ==> s.outcome == Some(Rejected(Aborted)) && !s.listening)
  }

  lemma NoCancelInScript(chunks: seq<seq<Byte>>)
    ensures |Script(chunks)| == |chunks| + 2 && Cancel !in Script(chunks)
    ensures forall k | 0 <= k < |chunks| :: Script(chunks)[1 + k] == Chunk(chunks[k])
    ensures Script(chunks)[0] == Start && Script(chunks)[|chunks| + 1] == End
  {
  }

  lemma PacketSent(chunks: seq<seq<Byte>>, n: nat)
    requires n < |Script(chunks)|
    ensures Script(chunks)[..n] + [Script(chunks)[n]] == Script(chunks)[..n + 1]
  {
  }

  lemma YieldKeeps(chunks: seq<seq<Byte>>, s: State)
    requires Invariant(chunks, s) && s.sender.Sending?
    ensures Invariant(chunks, AfterYield(chunks, s))
  {
    NoCancelInScript(chunks);
    PacketSent(chunks, s.sender.next + 1);
  }

  lemma AbortKeeps(chunks: seq<seq<Byte>>, s: State)
    requires Invariant(chunks, s) && s.ws != NotCreated
    ensures Invariant(chunks, AfterAbort(s))
  {
    if s.ws == Open && !s.resolved {
      var wire := s.wire + [Cancel];
      assert wire[..|wire| - 1] == s.wire;
    }
  }

  lemma StepKeeps(chunks: seq<seq<Byte>>, s: State, e: Event)
    requires Invariant(chunks, s)
    ensures Invariant(chunks, Step(chunks, s, e))
  {
    NoCancelInScript(chunks);
    if Possible(s, e) {
      match e
      case Opened => PacketSent(chunks, 0);
      case Yielded => YieldKeeps(chunks, s);
      case AbortSignal => AbortKeeps(chunks, s);
      case _ =>
    }
  }

  lemma {:induction false} RunInvariant(chunks: seq<seq<Byte>>, alreadyAborted: bool, events: seq<Event>)
    ensures Invariant(chunks, Run(chunks, alreadyAborted, events))
  {
    if events != [] {
      RunInvariant(chunks, alreadyAborted, events[..|events| - 1]);
      StepKeeps(chunks, Run(chunks, alreadyAborted, events[..|events| - 1]), events[|events| - 1]);
    }
  }

  /** On every run: the beginning of the conversation, then possibly one `cancel`, which is last. */
  lemma WireIsScript(chunks: seq<seq<Byte>>, alreadyAborted: bool, events: seq<Event>)
    ensures WellFormed(chunks, Run(chunks, alreadyAborted, events).wire)
    ensures alreadyAborted ==> Run(chunks, alreadyAborted, events).wire == []
  {
    RunInvariant(chunks, alreadyAborted, events);
    if alreadyAborted {
      NeverCreated(chunks, events);
    }
  }

  lemma {:induction false} NeverCreated(chunks: seq<seq<Byte>>, events: seq<Event>)
    ensures Run(chunks, true, events) == Begin(true)
  {
    if events != [] {
      NeverCreated(chunks, events[..|events| - 1]);
    }
  }

  /** The payload of a conversation. */
  function Payload(wire: seq<Packet>): seq<Byte> {
    if wire == [] then []
    else
      var last := wire[|wire| - 1];
      Payload(wire[..|wire| - 1]) + (if last.Chunk? then last.data else [])
  }

  lemma {:induction false} ScriptPayload(chunks: seq<seq<Byte>>, n: nat)
    requires n <= |chunks|
    ensures Payload(Script(chunks)[..1 + n]) == Flatten(chunks[..n])
  {
    var script := Script(chunks);
    NoCancelInScript(chunks);
    assert script[..1 + n][..n] == script[..n];
    if n == 0 {
      assert Payload(script[..0]) == [];
    } else {
      ScriptPayload(chunks, n - 1);
      assert chunks[..n][..n - 1] == chunks[..n - 1];
    }
  }

  lemma WholePayload(chunks: seq<seq<Byte>>)
    ensures Payload(Script(chunks)) == Flatten(chunks)
    ensures Payload(Script(chunks) + [Cancel]) == Flatten(chunks)
  {
    var script := Script(chunks);
    NoCancelInScript(chunks);
    ScriptPayload(chunks, |chunks|);
    assert script[..1 + |chunks|] == script[..|script| - 1] && chunks[..|chunks|] == chunks;
    assert (script + [Cancel])[..|script|] == script;
  }

  lemma EndIsLast(chunks: seq<seq<Byte>>, sent: seq<Packet>)
    requires sent <= Script(chunks) && End in sent
    ensures sent == Script(chunks)
  {
    NoCancelInScript(chunks);
    var k :| 0 <= k < |sent| && sent[k] == End;
    assert Script(chunks)[k] == End;
  }

  lemma EndMeansScript(chunks: seq<seq<Byte>>, wire: seq<Packet>)
    requires WellFormed(chunks, wire) && End in wire
    ensures wire == Script(chunks) || wire == Script(chunks) + [Cancel]
  {
    if wire <= Script(chunks) {
      EndIsLast(chunks, wire);
    } else {
      SplitLast(wire);
      EndIsLast(chunks, wire[..|wire| - 1]);
    }
  }

  /** `end` is sent only behind the start and every chunk in order, so its wire carries the whole input. */
  lemma EndMeansEverything(chunks: seq<seq<Byte>>, alreadyAborted: bool, events: seq<Event>)
    requires End in Run(chunks, alreadyAborted, events).wire
    ensures var wire := Run(chunks, alreadyAborted, events).wire;
            (wire == Script(chunks) || wire == Script(chunks) + [Cancel]) && Payload(wire) == Flatten(chunks)
  {
    RunInvariant(chunks, alreadyAborted, events);
    WholePayload(chunks);
    EndMeansScript(chunks, Run(chunks, alreadyAborted, events).wire);
  }

  /** A `cancel` goes out exactly when the signal aborts an upload whose socket is open. */
  lemma CancelExactly(chunks: seq<seq<Byte>>, s: State, e: Event)
    requires Invariant(chunks, s) && Cancel !in s.wire
    ensures Cancel in Step(chunks, s, e).wire <==> e == AbortSignal && s.ws == Open
  {
    NoCancelInScript(chunks);
    if e == AbortSignal && s.ws == Open {
      var wire := Step(chunks, s, e).wire;
      assert wire[|s.wire|] == Cancel;
    }
  }

  lemma SettledStays(chunks: seq<seq<Byte>>, s: State, e: Event)
    requires Invariant(chunks, s) && s.outcome.Some?
    ensures var t := Step(chunks, s, e); t.outcome == s.outcome && t.wire == s.wire && t.progress == s.progress
  {
  }

  /** Once settled, an upload keeps its outcome, sends nothing more and reports no more progress. */
  lemma {:induction false} SettledIsFinal(chunks: seq<seq<Byte>>, alreadyAborted: bool, events: seq<Event>, more: seq<Event>)
    requires Run(chunks, alreadyAborted, events).outcome.Some?
    ensures var s, t := Run(chunks, alreadyAborted, events), Run(chunks, alreadyAborted, events + more);
            t.outcome == s.outcome && t.wire == s.wire && t.progress == s.progress
  {
    if more == [] {
      assert events + more == events;
    } else {
      var front := more[..|more| - 1];
      SettledIsFinal(chunks, alreadyAborted, events, front);
      RunInvariant(chunks, alreadyAborted, events + front);
      assert (events + more)[..|events + more| - 1] == events + front;
      SettledStays(chunks, Run(chunks, alreadyAborted, events + front), more[|more| - 1]);
    }
  }

  /** How an event settles an upload that is not settled yet, if it does. */
  function Verdict(s: State, e: Event): Option<Outcome> {
    if !Possible(s, e) then None
    else
      match e
      case Threw(error) => Some(Rejected(IteratorFailed(error)))
      case AbortSignal => Some(Rejected(Aborted))
      case Received(Complete(file)) => Some(Resolved(file))
      case Received(Failure(text, code)) => Some(Rejected(ServerError(text, code)))
      case ErrorEvent => Some(Rejected(SocketError))
      case CloseEvent(reason) => Some(Rejected(SocketClosed(ReasonOr(reason))))
      case _ => None
  }

  /**
   * The first deciding event settles the upload, and by SettledIsFinal for good. The promise is
   * pending exactly as long as none has come, and the close of the socket always is one.
   */
  lemma FirstVerdictDecides(chunks: seq<seq<Byte>>, alreadyAborted: bool, events: seq<Event>, e: Event)
    requires Run(chunks, alreadyAborted, events).outcome == None
    ensures Run(chunks, alreadyAborted, events + [e]).outcome == Verdict(Run(chunks, alreadyAborted, events), e)
    ensures var s := Run(chunks, alreadyAborted, events);
            Run(chunks, alreadyAborted, events + [e]).outcome
            == match e
               case Threw(error) => if s.sender.Sending? then Some(Rejected(IteratorFailed(error))) else None
               case AbortSignal => Some(Rejected(Aborted))
               case Received(Complete(file)) => if s.ws == Open then Some(Resolved(file)) else None
               case Received(Failure(text, code)) => if s.ws == Open then Some(Rejected(ServerError(text, code))) else None
               case ErrorEvent => Some(Rejected(SocketError))
               case CloseEvent(reason) =>
                 Some(Rejected(SocketClosed(if reason == "" then "Connection closed unexpectedly" else reason)))
               case _ => None
  {
    RunInvariant(chunks, alreadyAborted, events);
    assert (events + [e])[..|events + [e]| - 1] == events;
  }

  // ---------- fileToChunks ----------

  /** `file.slice(start, end)`, whose bounds are cut down to the size of the file. */
  function Slice(file: seq<Byte>, start: nat, end: nat): seq<Byte>
    requires start <= end
  {
    file[if start < |file| then start else |file|..if end < |file| then end else |file|]
  }

  /** Chunks of one size, the last one possibly shorter but not empty. */
  predicate Tiles(chunks: seq<seq<Byte>>, size: nat) {
    && (forall k | 0 <= k < |chunks| - 1 :: |chunks[k]| == size)
    && (chunks != [] ==> 0 < |chunks[|chunks| - 1]| <= size)
  }

  /** The loop stops for every file exactly when the chunk size is positive, or at once for an empty file. */
  lemma SlicingEndsIff(file: seq<Byte>, chunkSize: nat)
    ensures (exists rounds: nat :: Offset(rounds, chunkSize) >= |file|) <==> chunkSize > 0 || file == []
  {
    if chunkSize > 0 {
      OffsetGrows(|file|, chunkSize);
    } else {
      assert Offset(0, chunkSize) == 0;
      forall rounds: nat ensures Offset(rounds, chunkSize) == 0 {
        OffsetStands(rounds);
      }
    }
  }

  /** `offset` after a number of rounds of the loop. */
  function Offset(rounds: nat, chunkSize: nat): nat {
    if rounds == 0 then 0 else Offset(rounds - 1, chunkSize) + chunkSize
  }

  lemma {:induction false} OffsetGrows(rounds: nat, chunkSize: nat)
    requires chunkSize > 0
    ensures Offset(rounds, chunkSize) >= rounds
  {
    if rounds > 0 { OffsetGrows(rounds - 1, chunkSize); }
  }

  lemma {:induction false} OffsetStands(rounds: nat)
    ensures Offset(rounds, 0) == 0
  {
    if rounds > 0 { OffsetStands(rounds - 1); }
  }

  method FileToChunks(file: seq<Byte>, chunkSize: nat) returns (chunks: seq<seq<Byte>>)
    requires chunkSize > 0 || file == []
    ensures Flatten(chunks) == file && Tiles(chunks, chunkSize)
  {
    var offset := 0;
    chunks := [];
    while offset < |file|
      invariant Flatten(chunks) == Slice(file, 0, offset)
      invariant forall k | 0 <= k < |chunks| :: 0 < |chunks[k]| <= chunkSize && (k < |chunks| - 1 || offset <= |file| ==> |chunks[k]| == chunkSize)
      decreases |file| - offset
    {
      var slice := Slice(file, offset, offset + chunkSize);
      assert (chunks + [slice])[..|chunks|] == chunks;
      chunks := chunks + [slice];
      offset := offset + chunkSize;
    }
  }

  // ---------- one event at a time ----------

  /**
   * What each event puts on the wire, on every run: the start on opening, then with each yield the next chunk or, behind
   * the last, the end, and a cancel on an abort; nothing unless the socket is open, and nothing after an abort.
   */
  lemma EachEventSends(chunks: seq<seq<Byte>>, alreadyAborted: bool, events: seq<Event>, e: Event)
    ensures var s, t := Run(chunks, alreadyAborted, events), Run(chunks, alreadyAborted, events + [e]);
            t.wire == s.wire
                      + match e
                        case Opened => if s.ws == Connecting then [Start] else []
                        case Yielded =>
                          if s.ws != Open || !s.sender.Sending? then []
                          else if s.sender.next < |chunks| then [Chunk(chunks[s.sender.next])] else [End]
                        case AbortSignal => if s.ws == Open then [Cancel] else []
                        case _ => []
  {
    RunInvariant(chunks, alreadyAborted, events);
    assert (events + [e])[..|events + [e]| - 1] == events;
  }

  /** Progress is reported exactly for the progress messages that an open socket receives, each once and in order. */
  lemma ProgressIsReported(chunks: seq<seq<Byte>>, alreadyAborted: bool, events: seq<Event>, e: Event)
    ensures var s, t := Run(chunks, alreadyAborted, events), Run(chunks, alreadyAborted, events + [e]);
            t.progress == s.progress + if e.Received? && e.message.Progress? && s.ws == Open then [e.message.bytesReceived] else []
  {
    assert (events + [e])[..|events + [e]| - 1] == events;
  }

  /** A settled upload has closed its socket or asked it to close, and no longer listens to the signal once resolved. */
  lemma SettledIsClosing(chunks: seq<seq<Byte>>, events: seq<Event>)
    requires Run(chunks, false, events).outcome.Some?
    ensures var s := Run(chunks, false, events);
            (s.ws == Closing || s.ws == Closed) && (s.resolved || s.aborted) && (s.resolved ==> !s.listening)
  {
    RunInvariant(chunks, false, events);
    NotUncreated(chunks, events);
  }

  lemma {:induction false} NotUncreated(chunks: seq<seq<Byte>>, events: seq<Event>)
    ensures Run(chunks, false, events).ws != NotCreated
  {
    if events != [] {
      NotUncreated(chunks, events[..|events| - 1]);
    }
  }
}
