/** Splitting text into lines, with the line feed alone or with `/\r?\n/` as the separator. */
module Lines {
  import opened Sequences
  import opened Unicode

  function CharsOf(vs: seq<Scalar>): string {
    seq(|vs|, k requires 0 <= k < |vs| => vs[k] as char)
  }

  lemma CharsOfConcat(a: seq<Scalar>, b: seq<Scalar>)
    ensures CharsOf(a + b) == CharsOf(a) + CharsOf(b)
  {
  }

  /** A separator starts at `i`; with `cr`, a carriage return in front belongs to it. */
  predicate BreakAt(s: string, i: nat, cr: bool)
    requires i < |s|
  {
    s[i] == '\n' || (cr && s[i] == '\r' && i + 1 < |s| && s[i + 1] == '\n')
  }

  function FirstBreakFrom(s: string, from: nat, cr: bool): (i: int)
    requires from <= |s|
    ensures i == -1 || (from <= i < |s| && BreakAt(s, i, cr))
    ensures forall k | from <= k < (if i == -1 then |s| else i) :: !BreakAt(s, k, cr)
    decreases |s| - from
  {
    if from == |s| then -1 else if BreakAt(s, from, cr) then from else FirstBreakFrom(s, from + 1, cr)
  }

  /** `indexOf("\n")`, or the leftmost match of `/\r?\n/`. */
  function FirstBreak(s: string, cr: bool): (i: int)
    ensures i == -1 || (0 <= i < |s| && BreakAt(s, i, cr))
    ensures forall k | 0 <= k < (if i == -1 then |s| else i) :: !BreakAt(s, k, cr)
  {
    FirstBreakFrom(s, 0, cr)
  }

  function BreakEnd(s: string, i: nat, cr: bool): (end: nat)
    requires i < |s| && BreakAt(s, i, cr)
    ensures i < end <= |s|
  {
    if s[i] == '\n' then i + 1 else i + 2
  }

  /** `split`: the pieces between separators, at least one. */
  function Split(s: string, cr: bool): (pieces: seq<string>)
    ensures pieces != []
    decreases |s|
  {
    var i := FirstBreak(s, cr);
    if i == -1 then [s] else [s[..i]] + Split(s[BreakEnd(s, i, cr)..], cr)
  }

  function Front<T>(s: seq<T>): seq<T>
    requires s != []
  {
    s[..|s| - 1]
  }

  function Last<T>(s: seq<T>): T
    requires s != []
  {
    s[|s| - 1]
  }

  // ---------- splitting is chunk independent ----------

  lemma FirstBreakIs(s: string, i: nat, cr: bool)
    requires i < |s| && BreakAt(s, i, cr)
    requires forall k | 0 <= k < i :: !BreakAt(s, k, cr)
    ensures FirstBreak(s, cr) == i
  {
  }

  lemma BreakIsStable(a: string, b: string, cr: bool)
    requires FirstBreak(a, cr) != -1
    ensures FirstBreak(a + b, cr) == FirstBreak(a, cr)
    ensures BreakEnd(a + b, FirstBreak(a, cr), cr) == BreakEnd(a, FirstBreak(a, cr), cr)
  {
    var i := FirstBreak(a, cr);
    forall k: nat | k <= i ensures BreakAt(a + b, k, cr) <==> BreakAt(a, k, cr) {
      assert (a + b)[k] == a[k];
      assert k + 1 < |a| ==> (a + b)[k + 1] == a[k + 1];
      assert k + 1 == |a| ==> k == i;
    }
    FirstBreakIs(a + b, i, cr);
  }

  lemma FirstPiece(a: string, b: string, cr: bool)
    requires FirstBreak(a, cr) != -1
    ensures var i := FirstBreak(a, cr);
            Split(a + b, cr) == [a[..i]] + Split(a[BreakEnd(a, i, cr)..] + b, cr)
  {
    BreakIsStable(a, b, cr);
    var i := FirstBreak(a, cr);
    var end := BreakEnd(a, i, cr);
    assert (a + b)[..i] == a[..i] && (a + b)[end..] == a[end..] + b;
  }

  lemma FrontLastCons<T>(x: T, s: seq<T>)
    requires s != []
    ensures Front([x] + s) == [x] + Front(s) && Last([x] + s) == Last(s)
  {
  }

  /**
   * Splitting may be done as text arrives: keep the last piece, put the new text behind it and split
   * again. It holds for carriage returns too, even with the pair cut in two.
   */
  lemma {:induction false} SplitConcat(a: string, b: string, cr: bool)
    ensures Split(a + b, cr) == Front(Split(a, cr)) + Split(Last(Split(a, cr)) + b, cr)
    decreases |a|
  {
    var i := FirstBreak(a, cr);
    if i == -1 {
      assert [] + Split(a + b, cr) == Split(a + b, cr);
    } else {
      var rest := a[BreakEnd(a, i, cr)..];
      SplitConcat(rest, b, cr);
      FirstPiece(a, b, cr);
      FrontLastCons(a[..i], Split(rest, cr));
      Regroup([a[..i]], Front(Split(rest, cr)), Split(Last(Split(rest, cr)) + b, cr));
    }
  }

  // ---------- what the pieces are ----------

  function Join(pieces: seq<string>): string
    requires pieces != []
  {
    if |pieces| == 1 then pieces[0] else pieces[0] + "\n" + Join(pieces[1..])
  }

  /** Splitting at line feeds is undone by joining with line feeds, and no piece holds one. */
  lemma {:induction false} SplitJoins(s: string)
    ensures Join(Split(s, false)) == s
    ensures forall k | 0 <= k < |Split(s, false)| :: '\n' !in Split(s, false)[k]
    decreases |s|
  {
    var i := FirstBreak(s, false);
    if i == -1 {
      NoFeed(s, |s|);
    } else {
      SplitJoins(s[i + 1..]);
      NoFeed(s, i);
      assert ([s[..i]] + Split(s[i + 1..], false))[1..] == Split(s[i + 1..], false);
      assert s == s[..i] + "\n" + s[i + 1..];
    }
  }

  lemma NoFeed(s: string, n: nat)
    requires n <= |s| && forall k | 0 <= k < n :: !BreakAt(s, k, false)
    ensures '\n' !in s[..n] && s[..|s|] == s
  {
    forall k | 0 <= k < n ensures s[..n][k] != '\n' {
      assert !BreakAt(s, k, false);
    }
  }

  function WithoutReturn(line: string): string {
    if line != "" && Last(line) == '\r' then Front(line) else line
  }

  function StripAllButLast(pieces: seq<string>): seq<string>
    requires pieces != []
  {
    seq(|pieces|, k requires 0 <= k < |pieces| => if k < |pieces| - 1 then WithoutReturn(pieces[k]) else pieces[k])
  }

  lemma ReturnBreak(s: string)
    ensures var i := FirstBreak(s, false);
            if i == -1 then FirstBreak(s, true) == -1
            else
              && FirstBreak(s, true) == (if i > 0 && s[i - 1] == '\r' then i - 1 else i)
              && BreakEnd(s, FirstBreak(s, true), true) == i + 1
  {
    var i := FirstBreak(s, false);
    if i == -1 {
      forall k | 0 <= k < |s| ensures !BreakAt(s, k, true) {
        assert !BreakAt(s, k, false);
        assert k + 1 < |s| ==> !BreakAt(s, k + 1, false);
      }
    } else {
      var j := if i > 0 && s[i - 1] == '\r' then i - 1 else i;
      forall k | 0 <= k < j ensures !BreakAt(s, k, true) {
        assert !BreakAt(s, k, false);
        assert k + 1 < i ==> !BreakAt(s, k + 1, false);
      }
      FirstBreakIs(s, j, true);
    }
  }

  lemma StripCons(piece: string, pieces: seq<string>)
    requires pieces != []
    ensures StripAllButLast([piece] + pieces) == [WithoutReturn(piece)] + StripAllButLast(pieces)
  {
    var all := [piece] + pieces;
    forall k | 0 <= k < |all| ensures StripAllButLast(all)[k] == ([WithoutReturn(piece)] + StripAllButLast(pieces))[k] {
      assert k > 0 ==> all[k] == pieces[k - 1];
    }
  }

  /** `/\r?\n/` gives the line-feed pieces, each but the last without one trailing carriage return. */
  lemma {:induction false} ReturnsComeOff(s: string)
    ensures Split(s, true) == StripAllButLast(Split(s, false))
    decreases |s|
  {
    var i := FirstBreak(s, false);
    ReturnBreak(s);
    if i != -1 {
      ReturnsComeOff(s[i + 1..]);
      StripCons(s[..i], Split(s[i + 1..], false));
      assert WithoutReturn(s[..i]) == s[..FirstBreak(s, true)];
    }
  }
}
