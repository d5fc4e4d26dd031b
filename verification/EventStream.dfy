/** Newline-delimited events as they arrive: packages/client/src/api/client.ts:698-723. */
module EventStream {
  import opened Options
  import opened Text
  import opened Sequences
  import opened Unicode
  import opened Utf8Streams
  import opened Lines

  /** The events handed to `onEvent`, and whether `JSON.parse` threw after them. */
  datatype Delivery<T> = Delivery(events: seq<T>, failed: bool)

  function Take<T>(parse: string -> Option<T>, so: Delivery<T>, line: string): Delivery<T> {
    if so.failed || Trim(line) == "" then so
    else
      match parse(Trim(line))
      case None => Delivery(so.events, true)
      case Some(event) => Delivery(so.events + [event], false)
  }

  /** The lines one after another, up to the first that does not parse. */
  function Deliver<T>(parse: string -> Option<T>, lines: seq<string>): Delivery<T> {
    if lines == [] then Delivery([], false) else Take(parse, Deliver(parse, Front(lines)), Last(lines))
  }

  lemma {:induction false} FailureStays<T>(parse: string -> Option<T>, a: seq<string>, b: seq<string>)
    requires Deliver(parse, a).failed
    ensures Deliver(parse, a + b) == Deliver(parse, a)
  {
    if b == [] {
      assert a + b == a;
    } else {
      FailureStays(parse, a, Front(b));
      assert Front(a + b) == a + Front(b) && Last(a + b) == Last(b);
    }
  }

  function TextChars(bytes: seq<Byte>): string {
    CharsOf(TextOf(bytes))
  }

  /** A line that fails in the text seen so far fails the whole stream, after the same events. */
  lemma FailureIsFinal<T>(parse: string -> Option<T>, seen: string, rest: string, lines: seq<string>, more: seq<string>)
    requires Split(seen, false) == lines + more && more != [] && Deliver(parse, lines).failed
    ensures Deliver(parse, Split(seen + rest, false)) == Deliver(parse, lines)
  {
    SplitConcat(seen, rest, false);
    var tail := Split(Last(Split(seen, false)) + rest, false);
    assert Front(lines + more) == lines + Front(more);
    Regroup(lines, Front(more), tail);
    FailureStays(parse, lines, Front(more) + tail);
  }

  lemma PieceOff(s: string)
    ensures var i := FirstBreak(s, false);
            if i == -1 then Split(s, false) == [s] else Split(s, false) == [s[..i]] + Split(s[i + 1..], false)
  {
  }

  lemma TakeLast<T>(parse: string -> Option<T>, lines: seq<string>, line: string)
    ensures Deliver(parse, lines + [line]) == Take(parse, Deliver(parse, lines), line)
  {
    assert Front(lines + [line]) == lines;
  }

  lemma MoreText(seen: string, text: string, lines: seq<string>, buffer: string)
    requires Split(seen, false) == lines + [buffer]
    ensures Split(seen + text, false) == lines + Split(buffer + text, false)
  {
    SplitConcat(seen, text, false);
    assert Front(lines + [buffer]) == lines;
  }

  /** A line that is not blank is parsed and handed on. */
  method TakeLine<T>(parse: string -> Option<T>, delivered: seq<T>, line: string) returns (events: seq<T>, failed: bool)
    ensures Delivery(events, failed) == Take(parse, Delivery(delivered, false), line)
  {
    events, failed := delivered, false;
    var trimmed := Trim(line);
    if trimmed != "" {
      var event := parse(trimmed);
      if event == None {
        return delivered, true;
      }
      events := events + [event.value];
    }
  }

  /** The inner loop: takes complete lines off the text, all of them unless one does not parse. */
  method TakeLines<T>(parse: string -> Option<T>, ghost lines: seq<string>, delivered: seq<T>, text: string)
    returns (events: seq<T>, failed: bool, buffer: string, ghost taken: seq<string>)
    requires Deliver(parse, lines) == Delivery(delivered, false)
    ensures Deliver(parse, lines + taken) == Delivery(events, failed)
    ensures Split(text, false) == taken + Split(buffer, false)
    ensures !failed ==> Split(buffer, false) == [buffer]
  {
    events, failed, buffer, taken := delivered, false, text, [];
    assert lines + taken == lines;
    var newlineIndex := FirstBreak(buffer, false);
    while newlineIndex >= 0
      invariant newlineIndex == FirstBreak(buffer, false)
      invariant Split(text, false) == taken + Split(buffer, false)
      invariant Deliver(parse, lines + taken) == Delivery(events, false)
      decreases |buffer|
    {
      PieceOff(buffer);
      var line := buffer[..newlineIndex];
      buffer := buffer[newlineIndex + 1..];
      Regroup(taken, [line], Split(buffer, false));
      TakeLast(parse, lines + taken, line);
      Regroup(lines, taken, [line]);
      taken := taken + [line];
      events, failed := TakeLine(parse, events, line);
      if failed {
        return;
      }
      newlineIndex := FirstBreak(buffer, false);
    }
    PieceOff(buffer);
  }

  /** The text that the read at `i` adds: a chunk, or the flush when the stream is done. */
  function TextRead(decoder: Decoder, chunks: seq<seq<Byte>>, i: nat): string {
    CharsOf(if i < |chunks| then TextOfChunk(decoder, chunks[i]) else TextAtEnd(decoder))
  }

  /** The decoder and the text after `i` reads. */
  ghost predicate Reads(chunks: seq<seq<Byte>>, i: nat, decoder: Decoder, seen: string) {
    i <= |chunks| && decoder == After(chunks[..i]) && seen == CharsOf(TextSoFar(chunks[..i]))
  }

  lemma NextRead(chunks: seq<seq<Byte>>, i: nat, decoder: Decoder, seen: string)
    requires Reads(chunks, i, decoder, seen) && i < |chunks|
    ensures Reads(chunks, i + 1, Fed(decoder, chunks[i]), seen + TextRead(decoder, chunks, i))
  {
    assert chunks[..i + 1][..i] == chunks[..i];
    CharsOfConcat(TextSoFar(chunks[..i]), TextOfChunk(decoder, chunks[i]));
  }

  /** All complete lines of `seen` have been delivered as `events`, and `buffer` is what follows the last. */
  ghost predicate Caught<T>(parse: string -> Option<T>, seen: string, buffer: string, events: seq<T>) {
    && Last(Split(seen, false)) == buffer
    && Deliver(parse, Front(Split(seen, false))) == Delivery(events, false)
  }

  /** The spec of the whole loop on a text. */
  ghost function Outcome<T>(parse: string -> Option<T>, text: string): Delivery<T> {
    Deliver(parse, Split(text, false))
  }

  /** What one read does with its text. */
  method TakeText<T>(parse: string -> Option<T>, ghost seen: string, ghost rest: string, delivered: seq<T>,
                     buffered: string, text: string)
    returns (events: seq<T>, failed: bool, buffer: string)
    requires Caught(parse, seen, buffered, delivered)
    ensures !failed ==> Caught(parse, seen + text, buffer, events)
    ensures failed ==> Delivery(events, true) == Outcome(parse, seen + text + rest)
  {
    ghost var lines := Front(Split(seen, false));
    MoreText(seen, text, lines, buffered);
    ghost var taken: seq<string>;
    events, failed, buffer, taken := TakeLines(parse, lines, delivered, buffered + text);
    Regroup(lines, taken, Split(buffer, false));
    if failed {
      FailureIsFinal(parse, seen + text, rest, lines + taken, Split(buffer, false));
    } else {
      assert Front(lines + taken + [buffer]) == lines + taken;
    }
  }

  lemma TailOutcome<T>(parse: string -> Option<T>, seen: string, buffer: string, events: seq<T>)
    requires Caught(parse, seen, buffer, events)
    ensures Outcome(parse, seen) == Take(parse, Delivery(events, false), buffer)
  {
  }

  /** What is still to come after the read at `i`: nothing after the last. */
  lemma Remaining(chunks: seq<seq<Byte>>, i: nat, decoder: Decoder, seen: string) returns (rest: string)
    requires Reads(chunks, i, decoder, seen)
    ensures TextChars(Flatten(chunks)) == seen + TextRead(decoder, chunks, i) + rest
    ensures i == |chunks| ==> TextChars(Flatten(chunks)) == seen + TextRead(decoder, chunks, i)
  {
    if i == |chunks| {
      rest := "";
      assert chunks[..i] == chunks;
      StreamingIsWhole(chunks);
      CharsOfConcat(TextSoFar(chunks), TextAtEnd(decoder));
    } else {
      NextRead(chunks, i, decoder, seen);
      var vs := TextSoFarIsPrefix(chunks, i + 1);
      rest := CharsOf(vs);
      CharsOfConcat(TextSoFar(chunks[..i + 1]), vs);
    }
  }

  /**
   * The reading loop. However the bytes are cut into chunks, the events are those of the whole text
   * split at its line feeds, each line trimmed and the empty ones dropped, up to the first line
   * that does not parse.
   */
  method ReadEvents<T>(chunks: seq<seq<Byte>>, parse: string -> Option<T>) returns (events: seq<T>, failed: bool)
    ensures Delivery(events, failed) == Outcome(parse, TextChars(Flatten(chunks)))
  {
    var decoder := FRESH;
    var buffer := "";
    events := [];
    ghost var seen := "";
    var i := 0;
    while true
      invariant Reads(chunks, i, decoder, seen)
      invariant Caught(parse, seen, buffer, events)
      decreases |chunks| - i
    {
      var done := i == |chunks|;
      var text := TextRead(decoder, chunks, i);
      ghost var rest := Remaining(chunks, i, decoder, seen);
      events, failed, buffer := TakeText(parse, seen, rest, events, buffer, text);
      if failed {
        return;
      }
      if done {
        TailOutcome(parse, seen + text, buffer, events);
        events, failed := TakeLine(parse, events, buffer);
        return;
      }
      NextRead(chunks, i, decoder, seen);
      decoder, seen := Fed(decoder, chunks[i]), seen + text;
      i := i + 1;
    }
  }

  /**
   * What a line adds to the events before it: nothing after a failure or if it is white space alone; otherwise the text
   * between its white space is parsed, and either its event is added or the stream fails.
   */
  lemma LineAdds<T>(parse: string -> Option<T>, lines: seq<string>, before: string, core: string, after: string)
    requires OnlyWhite(before) && OnlyWhite(after) && IsTight(core)
    ensures Deliver(parse, []) == Delivery([], false)
    ensures var d := Deliver(parse, lines);
            Deliver(parse, lines + [before + core + after])
            == if d.failed || core == "" then d
               else if parse(core) == None then Delivery(d.events, true)
               else Delivery(d.events + [parse(core).value], false)
  {
    TrimOf(before, core, after);
    TakeLast(parse, lines, before + core + after);
  }
}
