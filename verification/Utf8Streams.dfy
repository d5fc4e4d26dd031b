/** UTF-8 that arrives in pieces: a streaming `TextDecoder`, and decoding each piece on its own. */
module Utf8Streams {
  import opened Sequences
  import opened Unicode

  function Flatten<T>(chunks: seq<seq<T>>): seq<T> {
    if chunks == [] then [] else Flatten(chunks[..|chunks| - 1]) + chunks[|chunks| - 1]
  }

  /** The bytes begin a character that later bytes may still complete. */
  predicate Incomplete(bytes: seq<Byte>) {
    bytes != [] &&
    var b: int := bytes[0];
    if 0xC2 <= b <= 0xDF then |bytes| == 1
    else if 0xE0 <= b <= 0xEF then
      |bytes| < 3 && (|bytes| > 1 ==> Within(bytes, 1, if b == 0xE0 then 0xA0 else 0x80, if b == 0xED then 0x9F else 0xBF))
    else if 0xF0 <= b <= 0xF4 then
      && |bytes| < 4
      && (|bytes| > 1 ==> Within(bytes, 1, if b == 0xF0 then 0x90 else 0x80, if b == 0xF4 then 0x8F else 0xBF))
      && (|bytes| > 2 ==> Continues(bytes, 2))
    else false
  }

  datatype Progress = Progress(text: seq<Scalar>, pending: seq<Byte>)

  /** What is certain about a stream that starts with these bytes, and the bytes that still wait. */
  function Settled(bytes: seq<Byte>): Progress
    decreases |bytes|
  {
    if bytes == [] || Incomplete(bytes) then Progress([], bytes)
    else
      var first := DecodeFirst(bytes);
      var rest := Settled(bytes[first.1..]);
      Progress([first.0] + rest.text, rest.pending)
  }

  function DropMark(vs: seq<Scalar>): seq<Scalar> {
    if vs != [] && vs[0] == BYTE_ORDER_MARK then vs[1..] else vs
  }

  /** A `TextDecoder` between two calls with `{ stream: true }`. */
  datatype Decoder = Decoder(pending: seq<Byte>, started: bool)

  const FRESH := Decoder([], false)

  function Fed(d: Decoder, chunk: seq<Byte>): Decoder {
    var p := Settled(d.pending + chunk);
    Decoder(p.pending, d.started || p.text != [])
  }

  /** The text that `decode(chunk, { stream: true })` returns. */
  function TextOfChunk(d: Decoder, chunk: seq<Byte>): seq<Scalar> {
    var vs := Settled(d.pending + chunk).text;
    if d.started then vs else DropMark(vs)
  }

  /** The text that the last call, `decode(new Uint8Array(), { stream: false })`, returns. */
  function TextAtEnd(d: Decoder): seq<Scalar> {
    var vs := Utf8Decode(d.pending);
    if d.started then vs else DropMark(vs)
  }

  function After(chunks: seq<seq<Byte>>): Decoder {
    if chunks == [] then FRESH else Fed(After(chunks[..|chunks| - 1]), chunks[|chunks| - 1])
  }

  function TextSoFar(chunks: seq<seq<Byte>>): seq<Scalar> {
    if chunks == [] then []
    else TextSoFar(chunks[..|chunks| - 1]) + TextOfChunk(After(chunks[..|chunks| - 1]), chunks[|chunks| - 1])
  }

  /** The text of a whole stream in one call of `decode`. */
  function TextOf(bytes: seq<Byte>): seq<Scalar> {
    DropMark(Utf8Decode(bytes))
  }

  // ---------- how cuts act on decoding ----------

  lemma FirstIsStable(bytes: seq<Byte>, more: seq<Byte>)
    requires bytes != [] && !Incomplete(bytes)
    ensures DecodeFirst(bytes + more) == DecodeFirst(bytes) && !Incomplete(bytes + more)
  {
    var all := bytes + more;
    assert all[0] == bytes[0];
    assert |bytes| > 1 ==> all[1] == bytes[1];
    assert |bytes| > 2 ==> all[2] == bytes[2];
    assert |bytes| > 3 ==> all[3] == bytes[3];
  }

  lemma IncompleteIsReplaced(bytes: seq<Byte>)
    requires Incomplete(bytes)
    ensures Utf8Decode(bytes) == [REPLACEMENT]
  {
    assert DecodeFirst(bytes) == (REPLACEMENT, |bytes|);
  }

  /** One character of a stream settles at once, whatever follows the bytes at hand. */
  lemma SettledStep(a: seq<Byte>, b: seq<Byte>)
    requires a != [] && !Incomplete(a)
    ensures var n := DecodeFirst(a).1;
            && Settled(a + b).text == [DecodeFirst(a).0] + Settled(a[n..] + b).text
            && Settled(a + b).pending == Settled(a[n..] + b).pending
  {
    FirstIsStable(a, b);
    assert (a + b)[DecodeFirst(a).1..] == a[DecodeFirst(a).1..] + b;
  }

  /** Feeding a stream in two parts settles what feeding it at once does. */
  lemma {:induction false} SettledConcat(a: seq<Byte>, b: seq<Byte>)
    ensures Settled(a + b).text == Settled(a).text + Settled(Settled(a).pending + b).text
    ensures Settled(a + b).pending == Settled(Settled(a).pending + b).pending
    decreases |a|
  {
    if a == [] || Incomplete(a) {
    } else {
      var n := DecodeFirst(a).1;
      SettledConcat(a[n..], b);
      SettledStep(a, b);
      Regroup([DecodeFirst(a).0], Settled(a[n..]).text, Settled(Settled(a).pending + b).text);
    }
  }

  lemma {:induction false} SettledThenPending(a: seq<Byte>)
    ensures Utf8Decode(a) == Settled(a).text + Utf8Decode(Settled(a).pending)
    decreases |a|
  {
    if a == [] || Incomplete(a) {
      assert Settled(a).text + Utf8Decode(a) == Utf8Decode(a);
    } else {
      var n := DecodeFirst(a).1;
      SettledThenPending(a[n..]);
      Regroup([DecodeFirst(a).0], Settled(a[n..]).text, Utf8Decode(Settled(a).pending));
    }
  }

  lemma DropMarkConcat(a: seq<Scalar>, b: seq<Scalar>)
    ensures DropMark(a + b) == DropMark(a) + (if a != [] then b else DropMark(b))
  {
    if a == [] {
      assert a + b == b && DropMark(a) == [];
      assert [] + DropMark(b) == DropMark(b);
    } else {
      assert (a + b)[1..] == a[1..] + b;
    }
  }

  /** The decoder's state and output depend on the bytes seen so far, not on how they were cut. */
  lemma {:induction false} StateIgnoresCuts(chunks: seq<seq<Byte>>)
    ensures var p := Settled(Flatten(chunks));
            After(chunks) == Decoder(p.pending, p.text != []) && TextSoFar(chunks) == DropMark(p.text)
  {
    if chunks != [] {
      var front, last := chunks[..|chunks| - 1], chunks[|chunks| - 1];
      StateIgnoresCuts(front);
      SettledConcat(Flatten(front), last);
      DropMarkConcat(Settled(Flatten(front)).text, Settled(After(front).pending + last).text);
    }
  }

  /** Streaming is chunk independent, for malformed bytes as well: all chunks and the flush give the text of the whole. */
  lemma StreamingIsWhole(chunks: seq<seq<Byte>>)
    ensures TextSoFar(chunks) + TextAtEnd(After(chunks)) == TextOf(Flatten(chunks))
  {
    var p := Settled(Flatten(chunks));
    StateIgnoresCuts(chunks);
    SettledThenPending(Flatten(chunks));
    DropMarkConcat(p.text, Utf8Decode(p.pending));
  }

  lemma {:induction false} FlattenConcat<T>(a: seq<seq<T>>, b: seq<seq<T>>)
    ensures Flatten(a + b) == Flatten(a) + Flatten(b)
  {
    if b == [] {
      assert a + b == a;
    } else {
      var front, last := b[..|b| - 1], b[|b| - 1];
      FlattenConcat(a, front);
      assert (a + b)[..|a + b| - 1] == a + front;
      Regroup(Flatten(a), Flatten(front), last);
    }
  }

  /** What was returned before any point of a stream is the beginning of its text. */
  lemma TextSoFarIsPrefix(chunks: seq<seq<Byte>>, n: nat) returns (rest: seq<Scalar>)
    requires n <= |chunks|
    ensures TextOf(Flatten(chunks)) == TextSoFar(chunks[..n]) + rest
  {
    var seen, unseen := Flatten(chunks[..n]), Flatten(chunks[n..]);
    assert chunks == chunks[..n] + chunks[n..];
    FlattenConcat(chunks[..n], chunks[n..]);
    StateIgnoresCuts(chunks[..n]);
    SettledConcat(seen, unseen);
    SettledThenPending(seen + unseen);
    var p, q := Settled(seen), Settled(Settled(seen).pending + unseen);
    var tail := q.text + Utf8Decode(q.pending);
    Regroup(p.text, q.text, Utf8Decode(q.pending));
    DropMarkConcat(p.text, tail);
    rest := if p.text != [] then tail else DropMark(tail);
  }

  // ---------- decoding each chunk on its own ----------

  function DecodeEach(chunks: seq<seq<Byte>>): seq<Scalar> {
    if chunks == [] then [] else DecodeEach(chunks[..|chunks| - 1]) + Utf8Decode(chunks[|chunks| - 1])
  }

  lemma CompletingBytesContinue(a: seq<Byte>, b: seq<Byte>)
    requires Incomplete(a)
    ensures |a| <= DecodeFirst(a + b).1
    ensures forall k | |a| <= k < DecodeFirst(a + b).1 :: Continues(a + b, k)
  {
    var all := a + b;
    assert all[0] == a[0];
    assert |a| > 1 ==> all[1] == a[1];
    assert |a| > 2 ==> all[2] == a[2];
  }

  lemma CutIncomplete(a: seq<Byte>, b: seq<Byte>)
    requires Incomplete(a)
    ensures |Utf8Decode(a)| + |Utf8Decode(b)| >= |Utf8Decode(a + b)|
  {
    CompletingBytesContinue(a, b);
    IncompleteIsReplaced(a);
    var n := DecodeFirst(a + b).1;
    var y, rest := b[..n - |a|], b[n - |a|..];
    forall k | 0 <= k < |y| ensures Continues(y, k) {
      assert y[k] == (a + b)[|a| + k] && Continues(a + b, |a| + k);
    }
    StrayContinuations(y, rest);
    assert y + rest == b && (a + b)[n..] == rest;
  }

  /** Cutting never makes the decoded text shorter. */
  lemma {:induction false} CutNeverShortens(a: seq<Byte>, b: seq<Byte>)
    ensures |Utf8Decode(a)| + |Utf8Decode(b)| >= |Utf8Decode(a + b)|
    decreases |a|
  {
    if a == [] {
      assert a + b == b;
    } else if Incomplete(a) {
      CutIncomplete(a, b);
    } else {
      FirstIsStable(a, b);
      var n := DecodeFirst(a).1;
      assert (a + b)[n..] == a[n..] + b;
      CutNeverShortens(a[n..], b);
    }
  }

  lemma {:induction false} EachNeverShortens(chunks: seq<seq<Byte>>)
    ensures |DecodeEach(chunks)| >= |Utf8Decode(Flatten(chunks))|
  {
    if chunks != [] {
      EachNeverShortens(chunks[..|chunks| - 1]);
      CutNeverShortens(Flatten(chunks[..|chunks| - 1]), chunks[|chunks| - 1]);
    }
  }

  /** Text minus whole characters at its front is text. */
  lemma RestIsWhole(ws: seq<Scalar>, b: seq<Byte>, vs: seq<Scalar>)
    requires Utf8Encode(ws) + b == Utf8Encode(vs)
    ensures vs == ws + Utf8Decode(b) && Utf8Encode(Utf8Decode(b)) == b && Whole(b)
  {
    Utf8RoundTrip(vs);
    DecodeAfterWhole(ws, b);
    EncodeConcat(ws, Utf8Decode(b));
    assert Utf8Encode(vs)[|Utf8Encode(ws)|..] == b;
  }

  /** Text cut inside a character cannot come back, however its front was cut before. */
  lemma CutInsideShows(front: seq<seq<Byte>>, last: seq<Byte>, vs: seq<Scalar>)
    requires Flatten(front) + last == Utf8Encode(vs) && !Whole(Flatten(front))
    ensures DecodeEach(front) + Utf8Decode(last) != vs
  {
    var a := Flatten(front);
    assert last != [] by { assert last == [] ==> a == Utf8Encode(vs); }
    var before, v, after, n := FindCut(a, last, vs);
    assert n > 0 by { assert n == 0 ==> a == Utf8Encode(before); }
    CutInside(a, last, before, v, after, n);
    EachNeverShortens(front);
  }

  ghost predicate AllWhole(chunks: seq<seq<Byte>>) {
    forall k | 0 <= k < |chunks| :: Whole(chunks[k])
  }

  lemma {:induction false} AllWholeJoins(chunks: seq<seq<Byte>>)
    requires AllWhole(chunks)
    ensures Whole(Flatten(chunks))
  {
    if chunks == [] {
      assert Utf8Encode([]) == [];
    } else {
      var front, last := chunks[..|chunks| - 1], chunks[|chunks| - 1];
      assert AllWhole(front) && Whole(last);
      AllWholeJoins(front);
      var vs :| Utf8Encode(vs) == Flatten(front);
      var ws :| Utf8Encode(ws) == last;
      EncodeConcat(vs, ws);
    }
  }

  /**
   * Valid UTF-8 in any number of chunks: decoding each chunk on its own gives the text of the
   * whole if and only if every chunk starts and ends between characters.
   */
  lemma {:induction false} EachKeepsTextIff(chunks: seq<seq<Byte>>, vs: seq<Scalar>)
    requires Flatten(chunks) == Utf8Encode(vs)
    ensures DecodeEach(chunks) == vs <==> AllWhole(chunks)
    decreases |chunks|
  {
    if chunks == [] {
      Utf8RoundTrip(vs);
    } else {
      var front, last := chunks[..|chunks| - 1], chunks[|chunks| - 1];
      assert AllWhole(chunks) <==> AllWhole(front) && Whole(last) by {
        assert chunks == front + [last];
      }
      if Whole(Flatten(front)) {
        var ws :| Utf8Encode(ws) == Flatten(front);
        RestIsWhole(ws, last, vs);
        EachKeepsTextIff(front, ws);
        EachNeverShortens(front);
        Utf8RoundTrip(ws);
        SameTail(DecodeEach(front), ws, Utf8Decode(last));
      } else {
        CutInsideShows(front, last, vs);
        if AllWhole(front) { AllWholeJoins(front); }
      }
    }
  }

  lemma SameTail<T>(a: seq<T>, b: seq<T>, tail: seq<T>)
    ensures a + tail == b + tail <==> a == b
  {
    if a + tail == b + tail {
      assert a == (a + tail)[..|a|] && b == (b + tail)[..|b|];
    }
  }

  /** The text of a stream: a byte order mark at its start, the bytes EF BB BF, does not belong to it. */
  lemma StreamTextIs(bytes: seq<Byte>)
    ensures TextOf([0xEF, 0xBB, 0xBF] + bytes) == Utf8Decode(bytes)
    ensures !([0xEF, 0xBB, 0xBF] <= bytes) ==> TextOf(bytes) == Utf8Decode(bytes)
  {
    MarkInFront(bytes);
    if bytes != [] && DecodeFirst(bytes).0 == BYTE_ORDER_MARK {
      MarkIsThreeBytes(bytes);
    }
  }

  lemma MarkInFront(bytes: seq<Byte>)
    ensures Utf8Decode([0xEF, 0xBB, 0xBF] + bytes) == [BYTE_ORDER_MARK] + Utf8Decode(bytes)
  {
    assert Utf8Of(BYTE_ORDER_MARK) == [0xEF, 0xBB, 0xBF];
    Utf8Step(BYTE_ORDER_MARK, bytes);
  }

  lemma MarkIsThreeBytes(bytes: seq<Byte>)
    requires bytes != [] && DecodeFirst(bytes).0 == BYTE_ORDER_MARK
    ensures [0xEF, 0xBB, 0xBF] <= bytes
  {
    var b: int := bytes[0];
    assert 0xE0 <= b <= 0xEF;
    assert DecodeFirst(bytes).0 == (b - 0xE0) * 0x1000 + Tail(bytes, 1) * 0x40 + Tail(bytes, 2);
    assert b == 0xEF && Tail(bytes, 1) == 0x3B && Tail(bytes, 2) == 0x3F;
  }
}
