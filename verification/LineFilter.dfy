/** `forwardWithLineFilter`: scripts/dev.js:43-65. */
module LineFilter {
  import opened Sequences
  import opened Unicode
  import opened Utf8Streams
  import opened Lines

  /** The complete lines that are not suppressed, each ended by a line feed. */
  function Written(suppress: string -> bool, lines: seq<string>): string {
    if lines == [] then ""
    else Written(suppress, Front(lines)) + (if suppress(Last(lines)) then "" else Last(lines) + "\n")
  }

  /** What the whole of a text turns into: its last line, when there is one, stays without line feed. */
  function Forwarded(suppress: string -> bool, text: string): string {
    var lines := Split(text, true);
    Written(suppress, Front(lines)) + (if Last(lines) == "" || suppress(Last(lines)) then "" else Last(lines))
  }

  lemma {:induction false} WrittenConcat(suppress: string -> bool, a: seq<string>, b: seq<string>)
    ensures Written(suppress, a + b) == Written(suppress, a) + Written(suppress, b)
  {
    if b == [] {
      assert a + b == a;
    } else {
      WrittenConcat(suppress, a, Front(b));
      assert Front(a + b) == a + Front(b) && Last(a + b) == Last(b);
      Regroup(Written(suppress, a), Written(suppress, Front(b)), if suppress(Last(b)) then "" else Last(b) + "\n");
    }
  }

  /** The complete lines of a longer text: those before, then those the kept piece and the new text give. */
  lemma FrontAfterMore(text: string, more: string)
    ensures var kept := Split(text, true);
            var pieces := Split(Last(kept) + more, true);
            && Front(Split(text + more, true)) == Front(kept) + Front(pieces)
            && Last(Split(text + more, true)) == Last(pieces)
  {
    SplitConcat(text, more, true);
  }

  class Forwarder {
    const shouldSuppressLine: string -> bool
    var buffered: string
    var output: string
    /** The text of all chunks so far. */
    ghost var received: string

    ghost predicate Valid()
      reads this
    {
      && buffered == Last(Split(received, true))
      && output == Written(shouldSuppressLine, Front(Split(received, true)))
    }

    constructor (suppress: string -> bool)
      ensures Valid() && received == "" && output == "" && shouldSuppressLine == suppress
    {
      shouldSuppressLine := suppress;
      buffered, output, received := "", "", "";
    }

    /** `stream.on("data", …)`: `chunk.toString()` decodes this chunk alone. */
    method OnData(chunk: seq<Byte>)
      requires Valid()
      modifies this
      ensures Valid() && received == old(received) + CharsOf(Utf8Decode(chunk))
    {
      var text := CharsOf(Utf8Decode(chunk));
      FrontAfterMore(received, text);
      buffered := buffered + text;
      var lines := Split(buffered, true);
      WrittenConcat(shouldSuppressLine, Front(Split(received, true)), Front(lines));
      buffered := Last(lines);
      lines := Front(lines);
      received := received + text;
      ghost var before := output;
      for i := 0 to |lines|
        invariant output == before + Written(shouldSuppressLine, lines[..i])
        invariant buffered == Last(Split(received, true)) && received == old(received) + text
      {
        assert Front(lines[..i + 1]) == lines[..i];
        Regroup(before, Written(shouldSuppressLine, lines[..i]), lines[i] + "\n");
        if !shouldSuppressLine(lines[i]) {
          output := output + (lines[i] + "\n");
        }
      }
      assert lines[..|lines|] == lines;
    }

    /** `stream.on("end", …)`. */
    method OnEnd()
      requires Valid()
      modifies this`output
      ensures output == Forwarded(shouldSuppressLine, received)
    {
      if buffered != "" && !shouldSuppressLine(buffered) {
        output := output + buffered;
      }
    }
  }

  /** The text of a stream whose chunks are decoded one by one. */
  function TextReceived(chunks: seq<seq<Byte>>): string {
    if chunks == [] then "" else TextReceived(chunks[..|chunks| - 1]) + CharsOf(Utf8Decode(chunks[|chunks| - 1]))
  }

  lemma {:induction false} TextReceivedIs(chunks: seq<seq<Byte>>)
    ensures TextReceived(chunks) == CharsOf(DecodeEach(chunks))
  {
    if chunks != [] {
      var front := chunks[..|chunks| - 1];
      TextReceivedIs(front);
      CharsOfConcat(DecodeEach(front), Utf8Decode(chunks[|chunks| - 1]));
    }
  }

  lemma CharsOfInjective(a: seq<Scalar>, b: seq<Scalar>)
    ensures CharsOf(a) == CharsOf(b) <==> a == b
  {
    if CharsOf(a) == CharsOf(b) {
      assert |a| == |CharsOf(a)| == |b|;
      forall k | 0 <= k < |a| ensures a[k] == b[k] {
        assert CharsOf(a)[k] as int == a[k] && CharsOf(b)[k] as int == b[k];
      }
    }
  }

  /** All of a stream, event by event. */
  method ForwardStream(chunks: seq<seq<Byte>>, suppress: string -> bool) returns (output: string)
    ensures output == Forwarded(suppress, TextReceived(chunks))
  {
    var forwarder := new Forwarder(suppress);
    for i := 0 to |chunks|
      invariant forwarder.Valid() && forwarder.shouldSuppressLine == suppress
      invariant fresh(forwarder) && forwarder.received == TextReceived(chunks[..i])
    {
      assert chunks[..i + 1][..i] == chunks[..i];
      forwarder.OnData(chunks[i]);
    }
    assert chunks[..|chunks|] == chunks;
    forwarder.OnEnd();
    output := forwarder.output;
  }

  /**
   * Lines do not depend on the cuts, but characters do: the text that is split into lines is the
   * text of the stream if and only if no chunk ends inside a character.
   */
  lemma ReceivedIsTextIff(chunks: seq<seq<Byte>>, vs: seq<Scalar>)
    requires Flatten(chunks) == Utf8Encode(vs)
    ensures TextReceived(chunks) == CharsOf(vs) <==> AllWhole(chunks)
  {
    TextReceivedIs(chunks);
    CharsOfInjective(DecodeEach(chunks), vs);
    EachKeepsTextIff(chunks, vs);
  }

  /** A two-byte character over two chunks comes out as two replacement characters. */
  lemma SplitCharacterIsGarbled()
    ensures Flatten([[0xC3], [0xA9]]) == Utf8Encode([0xE9])
    ensures TextReceived([[0xC3], [0xA9]]) == CharsOf([REPLACEMENT, REPLACEMENT])
  {
    var chunks: seq<seq<Byte>> := [[0xC3], [0xA9]];
    assert chunks[..1] == [[0xC3]] && chunks[..1][..0] == [];
    assert Flatten(chunks) == [0xC3, 0xA9];
    TextReceivedIs(chunks);
    assert DecodeFirst([0xC3]) == (REPLACEMENT, 1) && DecodeFirst([0xA9]) == (REPLACEMENT, 1);
    assert Utf8Decode([0xC3]) == [REPLACEMENT] && Utf8Decode([0xA9]) == [REPLACEMENT];
    assert DecodeEach(chunks[..1]) == [REPLACEMENT];
  }

  lemma {:induction false} WrittenCons(suppress: string -> bool, line: string, lines: seq<string>)
    ensures Written(suppress, [line] + lines) == (if suppress(line) then "" else line + "\n") + Written(suppress, lines)
  {
    WrittenConcat(suppress, [line], lines);
    assert Front([line]) == [] && Last([line]) == line;
  }

  /** A line without line feed, and the same without one carriage return at its end. */
  predicate IsLine(line: string, shown: string) {
    && '\n' !in line && (line == shown || line == shown + "\r") && (shown == "" || shown[|shown| - 1] != '\r' || line == shown + "\r")
  }

  /**
   * What becomes of a text line by line: each line that ends with a line feed is written with a line feed, without its
   * carriage return, unless it is suppressed; what follows the last line feed is written as it is unless it
   * is suppressed.
   */
  lemma ForwardedLine(suppress: string -> bool, line: string, shown: string, rest: string)
    requires IsLine(line, shown)
    ensures Forwarded(suppress, line + "\n" + rest) == (if suppress(shown) then "" else shown + "\n") + Forwarded(suppress, rest)
    ensures Forwarded(suppress, line) == if line == "" || suppress(line) then "" else line
  {
    ForwardedFirst(suppress, line, shown, rest);
    SplitNothing(line);
    assert Front([line]) == [] && Last([line]) == line;
  }

  lemma ForwardedFirst(suppress: string -> bool, line: string, shown: string, rest: string)
    requires IsLine(line, shown)
    ensures Forwarded(suppress, line + "\n" + rest) == (if suppress(shown) then "" else shown + "\n") + Forwarded(suppress, rest)
  {
    SplitFirst(line, shown, rest);
    FrontLastCons(shown, Split(rest, true));
    WrittenCons(suppress, shown, Front(Split(rest, true)));
    var last := Last(Split(rest, true));
    Regroup(if suppress(shown) then "" else shown + "\n", Written(suppress, Front(Split(rest, true))),
            if last == "" || suppress(last) then "" else last);
  }

  lemma SplitNothing(line: string)
    requires '\n' !in line
    ensures Split(line, true) == [line]
  {
    assert forall k | 0 <= k < |line| :: line[k] != '\n';
    assert forall k | 0 <= k < |line| :: !BreakAt(line, k, true);
  }

  lemma SplitFirst(line: string, shown: string, rest: string)
    requires IsLine(line, shown)
    ensures Split(line + "\n" + rest, true) == [shown] + Split(rest, true)
  {
    var text, n := line + "\n" + rest, |shown|;
    assert forall k | 0 <= k < |line| :: text[k] == line[k] && line[k] != '\n';
    assert text[|line|] == '\n';
    assert line == shown + "\r" ==> text[n] == '\r';
    forall k | 0 <= k < n ensures !BreakAt(text, k, true) {
      assert k + 1 < |line| ==> text[k + 1] != '\n';
      assert k + 1 == |line| ==> line == shown && text[k] == shown[n - 1];
    }
    FirstBreakIs(text, n, true);
    assert text[..n] == shown;
    assert BreakEnd(text, n, true) == |line| + 1;
    assert text[|line| + 1..] == rest;
  }
}
