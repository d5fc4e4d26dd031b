/** When splicing from the bottom up leaves exactly the lines outside the removed ranges. */
module CssRemovalResults {
  import opened Options
  import opened Sequences
  import opened Text
  import opened CssRules
  import opened CssRemoval

  // ---------- kept lines ----------

  lemma KeptOne<T>(lines: seq<T>, rs: seq<Range>, from: nat)
    requires from < |lines| && !Covered(rs, from)
    ensures KeptFrom(lines, rs, from) == [lines[from]] + KeptFrom(lines, rs, from + 1)
  {
  }

  lemma {:induction false} KeptBelow<T>(lines: seq<T>, rs: seq<Range>, from: nat, end: nat)
    requires from <= end <= |lines| && forall i | from <= i < end :: !Covered(rs, i)
    ensures KeptFrom(lines, rs, from) == lines[from..end] + KeptFrom(lines, rs, end)
    decreases |lines| - from
  {
    var rest := KeptFrom(lines, rs, end);
    if from < end {
      KeptBelow(lines, rs, from + 1, end);
      KeptOne(lines, rs, from);
      SliceCons(lines, from, end);
      Regroup([lines[from]], lines[from + 1..end], rest);
    } else {
      EmptyPlus(rest);
      assert lines[from..end] == [];
    }
  }

  lemma {:induction false} KeptThrough<T>(lines: seq<T>, rs: seq<Range>, from: nat, to: nat)
    requires from <= to <= |lines| && forall i | from <= i < to :: Covered(rs, i)
    ensures KeptFrom(lines, rs, from) == KeptFrom(lines, rs, to)
    decreases |lines| - from
  {
    if from < to {
      KeptThrough(lines, rs, from + 1, to);
    }
  }

  lemma {:induction false} KeptSame<T>(lines: seq<T>, rs: seq<Range>, other: seq<Range>, from: nat)
    requires from <= |lines| && forall i | from <= i < |lines| :: Covered(rs, i) <==> Covered(other, i)
    ensures KeptFrom(lines, rs, from) == KeptFrom(lines, other, from)
    decreases |lines| - from
  {
    if from < |lines| {
      KeptSame(lines, rs, other, from + 1);
    }
  }

  lemma {:induction false} KeptCount<T>(lines: seq<T>, rs: seq<Range>, from: nat, to: nat)
    requires from <= to <= |lines|
    ensures |KeptFrom(lines, rs, from)| <= to - from + |KeptFrom(lines, rs, to)|
    decreases |lines| - from
  {
    if from < to {
      KeptCount(lines, rs, from + 1, to);
    }
  }

  /** A covered line among them makes the count smaller. */
  lemma KeptFewer<T>(lines: seq<T>, rs: seq<Range>, from: nat, at: nat, to: nat)
    requires from <= at < to <= |lines| && Covered(rs, at)
    ensures |KeptFrom(lines, rs, from)| < to - from + |KeptFrom(lines, rs, to)|
  {
    KeptCount(lines, rs, from, at);
    KeptCount(lines, rs, at + 1, to);
  }

  lemma {:induction false} NothingKeptIff<T>(lines: seq<T>, rs: seq<Range>, from: nat)
    requires from <= |lines|
    ensures KeptFrom(lines, rs, from) == [] <==> forall i | from <= i < |lines| :: Covered(rs, i)
    decreases |lines| - from
  {
    if from < |lines| {
      NothingKeptIff(lines, rs, from + 1);
    }
  }

  lemma CoveredAppend(rs: seq<Range>, r: Range, i: int)
    ensures Covered(rs + [r], i) <==> Covered(rs, i) || r.first <= i <= r.last
  {
    var all := rs + [r];
    if Covered(rs, i) {
      var k :| 0 <= k < |rs| && rs[k].first <= i <= rs[k].last;
      assert all[k] == rs[k];
    }
    if r.first <= i <= r.last {
      assert all[|rs|] == r;
    }
  }

  // ---------- one more splice ----------

  /** Where the part of the file starts that the ranges may have changed. */
  function Low(rs: seq<Range>, n: nat): nat {
    if rs == [] then n else rs[|rs| - 1].first
  }

  lemma NotCoveredBelow(rs: seq<Range>, n: nat, i: nat)
    requires Descending(rs) && i < Low(rs, n)
    ensures !Covered(rs, i)
  {
  }

  /** What is left and what should be left agree below `low`, and a difference is a loss. */
  ghost predicate Agree<T>(lines: seq<T>, s: seq<T>, o: seq<T>, low: nat) {
    && low <= |s| <= |o| && low <= |lines|
    && s[..low] == lines[..low] && o[..low] == lines[..low]
    && (|s| == |o| ==> s == o)
  }

  ghost predicate Shape<T>(lines: seq<T>, rs: seq<Range>)
    requires Valid(rs, |lines|)
  {
    Agree(lines, Spliced(lines, rs, |lines|), Outside(lines, rs), Low(rs, |lines|))
  }

  /** Lines outside `rs + [r]`: those below `r`, then those outside `rs` behind it. */
  lemma OutsideAppend<T>(lines: seq<T>, rs: seq<Range>, r: Range)
    requires Valid(rs + [r], |lines|) && Descending(rs + [r])
    ensures r.first <= r.last < |lines|
    ensures Outside(lines, rs + [r]) == lines[..r.first] + KeptFrom(lines, rs, r.last + 1)
  {
    var all := rs + [r];
    assert all[|rs|] == r;
    forall i: int ensures Covered(all, i) <==> Covered(rs, i) || r.first <= i <= r.last {
      CoveredAppend(rs, r, i);
    }
    forall i: nat | i < r.first ensures !Covered(all, i) {
      NotCoveredBelow(all, |lines|, i);
    }
    KeptBelow(lines, all, 0, r.first);
    KeptThrough(lines, all, r.first, r.last + 1);
    KeptSame(lines, all, rs, r.last + 1);
  }

  lemma OutsideBelow<T>(lines: seq<T>, rs: seq<Range>, at: nat)
    requires Valid(rs, |lines|) && Descending(rs) && at <= Low(rs, |lines|)
    ensures at <= |lines| && Outside(lines, rs) == lines[..at] + KeptFrom(lines, rs, at)
  {
    forall i: nat | i < at ensures !Covered(rs, i) {
      NotCoveredBelow(rs, |lines|, i);
    }
    KeptBelow(lines, rs, 0, at);
  }

  lemma SplicedAppend<T>(lines: seq<T>, rs: seq<Range>, r: Range)
    requires Valid(rs + [r], |lines|)
    ensures Valid(rs, |lines|) && r.first <= r.last < |lines|
    ensures Spliced(lines, rs + [r], |lines|) == Splice(Spliced(lines, rs, |lines|), r.first, Size(r))
  {
    var all := rs + [r];
    assert all[|rs|] == r && all[..|rs|] == rs;
    forall k | 0 <= k < |rs| ensures rs[k].first <= rs[k].last < |lines| {
      assert all[k] == rs[k];
    }
  }

  lemma DropsAgree<T>(s: seq<T>, o: seq<T>, low: nat, cut: nat)
    requires cut <= low <= |s| && low <= |o| && s[..low] == o[..low]
    ensures s[cut..] == o[cut..] <==> s == o
  {
    if s[cut..] == o[cut..] {
      assert s == s[..low][..cut] + s[cut..] && o == o[..low][..cut] + o[cut..];
    }
  }

  lemma HeadsAgree<T>(head: seq<T>, a: seq<T>, b: seq<T>)
    ensures head + a == head + b <==> a == b
    ensures (head + a)[..|head|] == head
  {
    if head + a == head + b {
      assert a == (head + a)[|head|..] && b == (head + b)[|head|..];
    }
  }

  lemma TakeTake<T>(s: seq<T>, lines: seq<T>, low: nat, first: nat)
    requires first <= low <= |s| && low <= |lines| && s[..low] == lines[..low]
    ensures s[..first] == lines[..first]
  {
    assert s[..first] == s[..low][..first] && lines[..first] == lines[..low][..first];
  }

  lemma SpliceInside<T>(s: seq<T>, first: nat, cut: nat)
    requires first < cut <= |s|
    ensures Splice(s, first, cut - first) == s[..first] + s[cut..]
  {
    if cut == |s| {
      assert s[..first] + s[cut..] == s[..first];
    }
  }

  /** Cutting the same lines out of both below `low`. */
  lemma CutBoth<T>(lines: seq<T>, s: seq<T>, o: seq<T>, low: nat, r: Range, s2: seq<T>, o2: seq<T>)
    requires Agree(lines, s, o, low) && r.first <= r.last < low
    requires s2 == Splice(s, r.first, Size(r)) && o2 == lines[..r.first] + o[r.last + 1..]
    ensures Agree(lines, s2, o2, r.first) && (s2 == o2 <==> s == o)
  {
    var first, cut := r.first, r.last + 1;
    TakeTake(s, lines, low, first);
    SpliceInside(s, first, cut);
    DropsAgree(s, o, low, cut);
    HeadsAgree(lines[..first], s[cut..], o[cut..]);
    HeadsAgree(lines[..first], o[cut..], s[cut..]);
  }

  /** A range below all others is removed as it should be, whatever happened above. */
  lemma ApartStep<T>(lines: seq<T>, rs: seq<Range>, r: Range)
    requires Valid(rs + [r], |lines|) && Valid(rs, |lines|) && Descending(rs + [r]) && Descending(rs)
    requires r.first <= r.last < Low(rs, |lines|) && Shape(lines, rs)
    ensures Shape(lines, rs + [r])
    ensures Spliced(lines, rs + [r], |lines|) == Outside(lines, rs + [r])
            <==> Spliced(lines, rs, |lines|) == Outside(lines, rs)
  {
    var all, n := rs + [r], |lines|;
    SplicedAppend(lines, rs, r);
    OutsideAppend(lines, rs, r);
    KeptAbove(lines, rs, r.last + 1);
    assert Low(all, n) == r.first;
    CutBoth(lines, Spliced(lines, rs, n), Outside(lines, rs), Low(rs, n), r, Spliced(lines, all, n), Outside(lines, all));
  }

  lemma KeptAbove<T>(lines: seq<T>, rs: seq<Range>, at: nat)
    requires Valid(rs, |lines|) && Descending(rs) && at <= Low(rs, |lines|)
    ensures at <= |lines| && at <= |Outside(lines, rs)| && Outside(lines, rs)[at..] == KeptFrom(lines, rs, at)
  {
    OutsideBelow(lines, rs, at);
  }

  /** Cutting `size` lines where fewer should go. */
  lemma CutTooMuch<T>(lines: seq<T>, s: seq<T>, kept: seq<T>, first: nat, size: nat)
    requires first <= |s| < first + size + |kept| && first <= |lines| && s[..first] == lines[..first]
    ensures var s2, o2 := Splice(s, first, size), lines[..first] + kept;
            Agree(lines, s2, o2, first) && (s2 == o2 <==> kept == [])
  {
    var s2 := Splice(s, first, size);
    assert s2[..first] == s[..first];
    HeadsAgree(lines[..first], kept, []);
    assert |s2| <= first + |kept| && (|s2| == first + |kept| <==> kept == []);
    if kept == [] {
      assert s2 == s2[..first];
      assert lines[..first] + kept == lines[..first];
    }
  }

  /** A range that encloses an earlier one takes too many lines, unless no line is left behind it. */
  lemma EnclosingStep<T>(lines: seq<T>, rs: seq<Range>, r: Range, inner: nat)
    requires Valid(rs + [r], |lines|) && Valid(rs, |lines|) && Descending(rs + [r]) && Descending(rs) && Shape(lines, rs)
    requires inner < |rs| && Encloses(r, rs[inner]) && r.first < Low(rs, |lines|) && r.first <= r.last < |lines|
    ensures Shape(lines, rs + [r])
    ensures Spliced(lines, rs + [r], |lines|) == Outside(lines, rs + [r])
            <==> KeptFrom(lines, rs, r.last + 1) == []
  {
    var s := Spliced(lines, rs, |lines|);
    SplicedAppend(lines, rs, r);
    OutsideAppend(lines, rs, r);
    TooFewLeft(lines, rs, r, inner);
    TakeTake(s, lines, Low(rs, |lines|), r.first);
    CutTooMuch(lines, s, KeptFrom(lines, rs, r.last + 1), r.first, Size(r));
  }

  lemma TooFewLeft<T>(lines: seq<T>, rs: seq<Range>, r: Range, inner: nat)
    requires Valid(rs, |lines|) && Descending(rs) && Shape(lines, rs)
    requires inner < |rs| && Encloses(r, rs[inner]) && r.first < Low(rs, |lines|) && r.first <= r.last < |lines|
    ensures |Spliced(lines, rs, |lines|)| < r.first + Size(r) + |KeptFrom(lines, rs, r.last + 1)|
  {
    OutsideBelow(lines, rs, r.first);
    assert Covered(rs, rs[inner].first);
    KeptFewer(lines, rs, r.first, rs[inner].first, r.last + 1);
  }

  // ---------- all splices ----------

  /** No line outside the ranges comes after `r`. */
  predicate NothingBehind(rs: seq<Range>, r: Range, n: nat) {
    forall i | r.last < i < n :: Covered(rs, i)
  }

  /** Every range that encloses another one has nothing left behind it. */
  predicate EnclosersAreLast(rs: seq<Range>, n: nat) {
    forall j, k | 0 <= j < |rs| && 0 <= k < |rs| && Encloses(rs[k], rs[j]) :: NothingBehind(rs, rs[k], n)
  }

  lemma FrontIs(rs: seq<Range>, n: nat)
    requires rs != [] && Valid(rs, n) && Descending(rs) && Laminar(rs)
    ensures var front := rs[..|rs| - 1];
            Valid(front, n) && Descending(front) && Laminar(front) && rs == front + [rs[|rs| - 1]]
  {
  }

  lemma BehindSame(front: seq<Range>, r: Range, a: Range, n: nat)
    requires r.last <= a.last
    ensures NothingBehind(front + [r], a, n) <==> NothingBehind(front, a, n)
  {
    forall i | a.last < i < n ensures Covered(front + [r], i) <==> Covered(front, i) {
      CoveredAppend(front, r, i);
    }
  }

  lemma ApartCondition(front: seq<Range>, r: Range, n: nat)
    requires Valid(front, n) && Descending(front + [r]) && r.first <= r.last < Low(front, n)
    ensures EnclosersAreLast(front + [r], n) <==> EnclosersAreLast(front, n)
  {
    var rs := front + [r];
    forall k | 0 <= k < |front| ensures r.last < front[k].first {
      assert rs[k] == front[k] && rs[|front| - 1] == front[|front| - 1];
      assert k == |front| - 1 || rs[k].first > rs[|front| - 1].first;
    }
    forall k | 0 <= k < |front| ensures NothingBehind(rs, front[k], n) <==> NothingBehind(front, front[k], n) {
      BehindSame(front, r, front[k], n);
    }
    if EnclosersAreLast(rs, n) {
      forall j, k | 0 <= j < |front| && 0 <= k < |front| && Encloses(front[k], front[j]) ensures NothingBehind(front, front[k], n) {
        assert Encloses(rs[k], rs[j]);
      }
    }
    if EnclosersAreLast(front, n) {
      forall j, k | 0 <= j < |rs| && 0 <= k < |rs| && Encloses(rs[k], rs[j]) ensures NothingBehind(rs, rs[k], n) {
        assert k < |front| && j < |front|;
      }
    }
  }

  lemma EnclosingCondition(front: seq<Range>, r: Range, n: nat, inner: nat)
    requires inner < |front| && Encloses(r, front[inner]) && Descending(front + [r]) && Valid(front + [r], n)
    ensures EnclosersAreLast(front + [r], n) <==> NothingBehind(front, r, n)
  {
    var rs := front + [r];
    BehindSame(front, r, r, n);
    if EnclosersAreLast(rs, n) {
      assert Encloses(rs[|front|], rs[inner]);
    }
    if NothingBehind(rs, r, n) {
      forall j, k | 0 <= j < |rs| && 0 <= k < |rs| && Encloses(rs[k], rs[j]) ensures NothingBehind(rs, rs[k], n) {
        BehindToo(rs, k, n);
      }
    }
  }

  lemma BehindToo(rs: seq<Range>, k: nat, n: nat)
    requires k < |rs| && Descending(rs) && Valid(rs, n) && NothingBehind(rs, rs[|rs| - 1], n)
    ensures NothingBehind(rs, rs[k], n)
  {
    var r := rs[|rs| - 1];
    forall i | rs[k].last < i < n ensures Covered(rs, i) {
      if i <= r.last {
        assert k == |rs| - 1 || rs[k].first > r.first;
      }
    }
  }

  /** The ranges are exactly removed, or the condition fails. */
  ghost predicate Exact<T>(lines: seq<T>, rs: seq<Range>)
    requires Valid(rs, |lines|)
  {
    Shape(lines, rs) && (Spliced(lines, rs, |lines|) == Outside(lines, rs) <==> EnclosersAreLast(rs, |lines|))
  }

  lemma ExactApart<T>(lines: seq<T>, front: seq<Range>, r: Range)
    requires Valid(front + [r], |lines|) && Valid(front, |lines|) && Descending(front + [r]) && Descending(front)
    requires Exact(lines, front) && r.first <= r.last < Low(front, |lines|)
    ensures Exact(lines, front + [r])
  {
    ApartStep(lines, front, r);
    ApartCondition(front, r, |lines|);
  }

  lemma ExactEnclosing<T>(lines: seq<T>, front: seq<Range>, r: Range)
    requires Valid(front + [r], |lines|) && Valid(front, |lines|) && Descending(front + [r]) && Descending(front)
    requires Exact(lines, front) && front != [] && Encloses(r, front[|front| - 1]) && r.first < Low(front, |lines|)
    requires r.first <= r.last < |lines|
    ensures Exact(lines, front + [r])
  {
    EnclosingStep(lines, front, r, |front| - 1);
    EnclosingCondition(front, r, |lines|, |front| - 1);
    NothingKeptIff(lines, front, r.last + 1);
  }

  lemma {:induction false} RemovalShape<T>(lines: seq<T>, rs: seq<Range>)
    requires Valid(rs, |lines|) && Descending(rs) && Laminar(rs)
    ensures Exact(lines, rs)
    decreases |rs|
  {
    if rs == [] {
      OutsideBelow(lines, rs, |lines|);
    } else {
      var front, r := rs[..|rs| - 1], rs[|rs| - 1];
      FrontIs(rs, |lines|);
      RemovalShape(lines, front);
      if r.last < Low(front, |lines|) {
        ExactApart(lines, front, r);
      } else {
        LastEncloses(rs, |lines|);
        ExactEnclosing(lines, front, r);
      }
    }
  }

  lemma LastEncloses(rs: seq<Range>, n: nat)
    requires rs != [] && Valid(rs, n) && Descending(rs) && Laminar(rs)
    requires rs[|rs| - 1].last >= Low(rs[..|rs| - 1], n)
    ensures |rs| > 1 && Encloses(rs[|rs| - 1], rs[|rs| - 2]) && rs[|rs| - 1].first < Low(rs[..|rs| - 1], n)
  {
  }

  // ---------- main results ----------

  lemma SameMembers(rs: seq<Range>, sorted: seq<Range>)
    requires multiset(rs) == multiset(sorted)
    ensures forall r :: r in rs <==> r in sorted
  {
    forall r ensures r in rs <==> r in sorted {
      assert r in rs <==> r in multiset(rs);
      assert r in sorted <==> r in multiset(sorted);
    }
  }

  lemma SameCover(rs: seq<Range>, sorted: seq<Range>, i: int)
    requires forall r :: r in rs <==> r in sorted
    ensures Covered(rs, i) <==> Covered(sorted, i)
  {
    if Covered(rs, i) {
      var k :| 0 <= k < |rs| && rs[k].first <= i <= rs[k].last;
      assert rs[k] in sorted;
    }
    if Covered(sorted, i) {
      var k :| 0 <= k < |sorted| && sorted[k].first <= i <= sorted[k].last;
      assert sorted[k] in rs;
    }
  }

  lemma Find(rs: seq<Range>, r: Range) returns (k: nat)
    requires r in rs
    ensures k < |rs| && rs[k] == r
  {
    k :| k < |rs| && rs[k] == r;
  }

  lemma SameCondition(rs: seq<Range>, sorted: seq<Range>, n: nat)
    requires forall r :: r in rs <==> r in sorted
    ensures EnclosersAreLast(rs, n) ==> EnclosersAreLast(sorted, n)
  {
    if EnclosersAreLast(rs, n) {
      forall j, k | 0 <= j < |sorted| && 0 <= k < |sorted| && Encloses(sorted[k], sorted[j])
        ensures NothingBehind(sorted, sorted[k], n)
      {
        var i := Find(rs, sorted[j]);
        var l := Find(rs, sorted[k]);
        assert NothingBehind(rs, rs[l], n);
        forall u | sorted[k].last < u < n ensures Covered(sorted, u) {
          SameCover(rs, sorted, u);
        }
      }
    }
  }

  /** Sorting the accepted rules leaves ranges that `RemovalShape` is about. */
  lemma SortedAccepted(candidates: seq<Range>, n: nat)
    requires Valid(candidates, n)
    ensures var rs, sorted := Accepted(candidates), SortDescending(Accepted(candidates));
            && Valid(sorted, n) && Descending(sorted) && Laminar(sorted)
            && forall r :: r in rs <==> r in sorted
  {
    var rs := Accepted(candidates);
    var sorted := SortDescending(rs);
    AcceptedIs(candidates, n);
    SortedKeeps(rs);
    SortedDescends(rs);
    SameMembers(rs, sorted);
    forall k | 0 <= k < |sorted| ensures sorted[k].first <= sorted[k].last < n {
      assert sorted[k] in rs;
    }
    forall i, j | 0 <= i < j < |sorted|
      ensures Apart(sorted[i], sorted[j]) || Encloses(sorted[i], sorted[j]) || Encloses(sorted[j], sorted[i])
    {
      assert sorted[i] in rs && sorted[j] in rs;
      var k := Find(rs, sorted[i]);
      var l := Find(rs, sorted[j]);
      assert k != l;
    }
  }

  /**
   * For ranges in any order: splicing the accepted ones out from the bottom up leaves exactly the lines outside all of them,
   * in order, if and only if every accepted rule that strictly encloses another accepted one has no
   * line left behind it. Otherwise lines that belong to no rule are lost.
   */
  lemma RemovalExactIff<T>(lines: seq<T>, candidates: seq<Range>)
    requires Valid(candidates, |lines|)
    ensures var rs, sorted := Accepted(candidates), SortDescending(Accepted(candidates));
            && Valid(sorted, |lines|)
            && (Spliced(lines, sorted, |lines|) == Outside(lines, rs) <==> EnclosersAreLast(rs, |lines|))
            && (|Spliced(lines, sorted, |lines|)| < |Outside(lines, rs)| <==> !EnclosersAreLast(rs, |lines|))
  {
    var rs := Accepted(candidates);
    var sorted := SortDescending(rs);
    SortedAccepted(candidates, |lines|);
    RemovalShape(lines, sorted);
    forall i: int ensures Covered(rs, i) <==> Covered(sorted, i) {
      SameCover(rs, sorted, i);
    }
    KeptSame(lines, rs, sorted, 0);
    SameCondition(rs, sorted, |lines|);
    SameCondition(sorted, rs, |lines|);
  }

  /** Pairwise disjoint rules are removed exactly. */
  lemma DisjointRemoval<T>(lines: seq<T>, candidates: seq<Range>)
    requires Valid(candidates, |lines|) && Disjoint(Accepted(candidates))
    ensures var sorted := SortDescending(Accepted(candidates));
            Valid(sorted, |lines|) && Spliced(lines, sorted, |lines|) == Outside(lines, Accepted(candidates))
  {
    var rs := Accepted(candidates);
    RemovalExactIff(lines, candidates);
    AcceptedIs(candidates, |lines|);
    forall j, k | 0 <= j < |rs| && 0 <= k < |rs| ensures !Encloses(rs[k], rs[j]) {
      assert j == k || Apart(rs[j], rs[k]) || Apart(rs[k], rs[j]);
    }
  }

  // ---------- blank lines ----------

  function NotBlank(lines: seq<string>): seq<string> {
    if lines == [] then []
    else NotBlank(lines[..|lines| - 1]) + (if IsBlankLine(lines[|lines| - 1]) then [] else [lines[|lines| - 1]])
  }

  predicate NoBlankPair(lines: seq<string>) {
    forall k | 0 < k < |lines| :: !(IsBlankLine(lines[k - 1]) && IsBlankLine(lines[k]))
  }

  /**
   * The pass leaves no two adjacent blank lines, keeps every other line in order, changes nothing
   * exactly when there is nothing to collapse, and ends in a blank line exactly when the input does.
   */
  lemma {:induction false} CollapseIs(lines: seq<string>)
    ensures NoBlankPair(Collapsed(lines)) && NotBlank(Collapsed(lines)) == NotBlank(lines)
    ensures |Collapsed(lines)| <= |lines| && (Collapsed(lines) == lines <==> NoBlankPair(lines))
    ensures EndsBlank(Collapsed(lines)) == EndsBlank(lines)
  {
    if lines != [] {
      var front, last := lines[..|lines| - 1], lines[|lines| - 1];
      CollapseIs(front);
      assert lines == front + [last];
      if IsBlankLine(last) && EndsBlank(front) {
        assert IsBlankLine(lines[|lines| - 2]);
        assert NotBlank(lines) == NotBlank(front);
      } else {
        CollapseStep(front, last);
      }
    }
  }

  lemma CollapseStep(front: seq<string>, last: string)
    requires !(IsBlankLine(last) && EndsBlank(front))
    requires NoBlankPair(Collapsed(front)) && EndsBlank(Collapsed(front)) == EndsBlank(front)
    requires Collapsed(front) == front <==> NoBlankPair(front)
    ensures Collapsed(front + [last]) == Collapsed(front) + [last] && NoBlankPair(Collapsed(front) + [last])
    ensures Collapsed(front + [last]) == front + [last] <==> NoBlankPair(front + [last])
    ensures NotBlank(Collapsed(front) + [last]) == NotBlank(Collapsed(front)) + (if IsBlankLine(last) then [] else [last])
  {
    var all, done := front + [last], Collapsed(front) + [last];
    assert all[..|front|] == front && done[..|Collapsed(front)|] == Collapsed(front);
    HeadSame(Collapsed(front), front, last);
    PairAppend(front, last);
    PairAppend(Collapsed(front), last);
  }

  lemma HeadSame(a: seq<string>, b: seq<string>, last: string)
    ensures a + [last] == b + [last] <==> a == b
  {
    if a + [last] == b + [last] {
      assert a == (a + [last])[..|a|] && b == (b + [last])[..|b|];
    }
  }

  lemma PairAppend(lines: seq<string>, last: string)
    ensures NoBlankPair(lines + [last]) <==> NoBlankPair(lines) && !(IsBlankLine(last) && EndsBlank(lines))
  {
    var all := lines + [last];
    assert forall k | 0 <= k < |lines| :: all[k] == lines[k];
    assert all[|lines|] == last;
    if NoBlankPair(all) {
      forall k | 0 < k < |lines| ensures !(IsBlankLine(lines[k - 1]) && IsBlankLine(lines[k])) {
        assert !(IsBlankLine(all[k - 1]) && IsBlankLine(all[k]));
      }
    }
  }

  // ---------- what is left, line by line ----------

  /** The positions ascend, and they are exactly those from `from` on that no rule covers, its first and last line included. */
  ghost predicate Uncovered(n: nat, rs: seq<Range>, from: nat, kept: seq<nat>) {
    && (forall i, j | 0 <= i < j < |kept| :: kept[i] < kept[j])
    && (forall k: nat :: k in kept <==> from <= k < n && forall r | r in rs :: k < r.first || k > r.last)
  }

  lemma CoveredIff(rs: seq<Range>, i: nat)
    ensures Covered(rs, i) <==> !(forall r | r in rs :: i < r.first || i > r.last)
  {
    if Covered(rs, i) {
      var k :| 0 <= k < |rs| && rs[k].first <= i <= rs[k].last;
      assert rs[k] in rs;
    }
  }

  lemma {:induction false} KeptPositions<T>(lines: seq<T>, rs: seq<Range>, from: nat) returns (kept: seq<nat>)
    requires from <= |lines|
    ensures Uncovered(|lines|, rs, from, kept)
    ensures |KeptFrom(lines, rs, from)| == |kept|
    ensures forall i | 0 <= i < |kept| :: kept[i] < |lines| && KeptFrom(lines, rs, from)[i] == lines[kept[i]]
    decreases |lines| - from
  {
    if from == |lines| {
      kept := [];
    } else {
      var rest := KeptPositions(lines, rs, from + 1);
      CoveredIff(rs, from);
      kept := (if Covered(rs, from) then [] else [from]) + rest;
      assert forall i | 0 <= i < |rest| :: rest[i] in rest;
    }
  }

  /** What is left of a file: exactly the lines that lie in no rule, first and last line included, in their order. */
  lemma OutsideIs<T>(lines: seq<T>, rs: seq<Range>) returns (kept: seq<nat>)
    ensures forall i, j | 0 <= i < j < |kept| :: kept[i] < kept[j]
    ensures forall k: nat :: k in kept <==> k < |lines| && forall r | r in rs :: k < r.first || k > r.last
    ensures |Outside(lines, rs)| == |kept| && forall i | 0 <= i < |kept| :: kept[i] < |lines| && Outside(lines, rs)[i] == lines[kept[i]]
  {
    kept := KeptPositions(lines, rs, 0);
  }
}
