/** Taking unused rules out of a file: `removeUnusedRules`, scripts/find-unused-css.ts:371-445. */
module CssRemoval {
  import opened Options
  import opened Sequences
  import opened Text
  import opened CssRules

  /** The overlap test: does either end of the rule lie in `r`? */
  predicate Overlaps(rule: Range, r: Range) {
    || r.first <= rule.first <= r.last
    || r.first <= rule.last <= r.last
  }

  predicate OverlapsAny(rule: Range, accepted: seq<Range>) {
    exists k | 0 <= k < |accepted| :: Overlaps(rule, accepted[k])
  }

  /** The rules that pass the overlap test, in the order in which they were found. */
  function Accepted(candidates: seq<Range>): seq<Range> {
    if candidates == [] then []
    else
      var before := Accepted(candidates[..|candidates| - 1]);
      var rule := candidates[|candidates| - 1];
      if OverlapsAny(rule, before) then before else before + [rule]
  }

  /** `splice(start, count)` on an array that may be shorter. */
  function Splice<T>(s: seq<T>, start: nat, count: nat): seq<T> {
    if |s| <= start then s else if |s| <= start + count then s[..start] else s[..start] + s[start + count..]
  }

  function Size(r: Range): nat
    requires r.first <= r.last
  {
    r.last - r.first + 1
  }

  predicate Valid(rs: seq<Range>, n: nat) {
    forall k | 0 <= k < |rs| :: rs[k].first <= rs[k].last < n
  }

  /** The lines after all ranges have been spliced out one after another. */
  function Spliced<T>(lines: seq<T>, rs: seq<Range>, n: nat): seq<T>
    requires Valid(rs, n)
    decreases |rs|
  {
    if rs == [] then lines
    else Splice(Spliced(lines, rs[..|rs| - 1], n), rs[|rs| - 1].first, Size(rs[|rs| - 1]))
  }

  predicate Covered(rs: seq<Range>, i: int) {
    exists k | 0 <= k < |rs| :: rs[k].first <= i <= rs[k].last
  }

  /** The lines from `from` on that are outside all ranges. */
  function KeptFrom<T>(lines: seq<T>, rs: seq<Range>, from: nat): seq<T>
    requires from <= |lines|
    decreases |lines| - from
  {
    if from == |lines| then []
    else (if Covered(rs, from) then [] else [lines[from]]) + KeptFrom(lines, rs, from + 1)
  }

  /** What removing the ranges is meant to leave. */
  function Outside<T>(lines: seq<T>, rs: seq<Range>): seq<T> {
    KeptFrom(lines, rs, 0)
  }

  /** `outer` begins before `inner` and ends after it. */
  predicate Encloses(outer: Range, inner: Range) {
    outer.first < inner.first && inner.last < outer.last
  }

  predicate Apart(a: Range, b: Range) {
    a.last < b.first || b.last < a.first
  }

  predicate Disjoint(rs: seq<Range>) {
    forall i, j | 0 <= i < j < |rs| :: Apart(rs[i], rs[j])
  }

  // ---------- what the overlap test lets through ----------

  predicate Laminar(rs: seq<Range>) {
    forall i, j | 0 <= i < j < |rs| :: Apart(rs[i], rs[j]) || Encloses(rs[i], rs[j]) || Encloses(rs[j], rs[i])
  }

  predicate EnclosesEarlier(rs: seq<Range>) {
    exists i, j | 0 <= i < j < |rs| :: Encloses(rs[j], rs[i])
  }

  lemma OverlapExactly(rule: Range, r: Range)
    requires rule.first <= rule.last && r.first <= r.last
    ensures !Overlaps(rule, r) <==> Apart(rule, r) || Encloses(rule, r)
  {
  }

  /**
   * For candidates in any order, accepted rules are pairwise disjoint unless one strictly encloses a rule accepted before it: the
   * test only looks at the ends of the new rule, so exactly that case escapes it.
   */
  lemma {:induction false} AcceptedIs(candidates: seq<Range>, n: nat)
    requires Valid(candidates, n)
    ensures Valid(Accepted(candidates), n)
    ensures forall i, j | 0 <= i < j < |Accepted(candidates)| ::
              Apart(Accepted(candidates)[i], Accepted(candidates)[j]) || Encloses(Accepted(candidates)[j], Accepted(candidates)[i])
  {
    if candidates != [] {
      var before, rule := Accepted(candidates[..|candidates| - 1]), candidates[|candidates| - 1];
      AcceptedIs(candidates[..|candidates| - 1], n);
      if !OverlapsAny(rule, before) {
        forall i | 0 <= i < |before| ensures Apart(before[i], rule) || Encloses(rule, before[i]) {
          OverlapExactly(rule, before[i]);
        }
      }
    }
  }

  lemma AcceptedDisjointIff(candidates: seq<Range>, n: nat)
    requires Valid(candidates, n)
    ensures Laminar(Accepted(candidates))
    ensures Disjoint(Accepted(candidates)) <==> !EnclosesEarlier(Accepted(candidates))
  {
    AcceptedIs(candidates, n);
    var rs := Accepted(candidates);
    if Disjoint(rs) {
      forall i, j | 0 <= i < j < |rs| ensures !Encloses(rs[j], rs[i]) {
        assert Apart(rs[i], rs[j]);
      }
    }
  }

  // ---------- sorting ----------

  function Inserted(rs: seq<Range>, r: Range): seq<Range> {
    if rs != [] && r.first > rs[|rs| - 1].first then Inserted(rs[..|rs| - 1], r) + [rs[|rs| - 1]] else rs + [r]
  }

  /** `sort((a, b) => b.startLine - a.startLine)`, which is stable. */
  function SortDescending(rs: seq<Range>): seq<Range> {
    if rs == [] then [] else Inserted(SortDescending(rs[..|rs| - 1]), rs[|rs| - 1])
  }

  predicate Descending(rs: seq<Range>) {
    forall i, j | 0 <= i < j < |rs| :: rs[i].first > rs[j].first
  }

  lemma {:induction false} InsertedIs(rs: seq<Range>, r: Range)
    ensures multiset(Inserted(rs, r)) == multiset(rs) + multiset{r}
  {
    if rs != [] && r.first > rs[|rs| - 1].first {
      InsertedIs(rs[..|rs| - 1], r);
      assert rs == rs[..|rs| - 1] + [rs[|rs| - 1]];
    }
  }

  lemma {:induction false} InsertedDescends(rs: seq<Range>, r: Range)
    requires Descending(rs) && forall k | 0 <= k < |rs| :: rs[k].first != r.first
    ensures Descending(Inserted(rs, r))
    ensures forall k | 0 <= k < |Inserted(rs, r)| :: Inserted(rs, r)[k] == r || Inserted(rs, r)[k] in rs
  {
    if rs != [] && r.first > rs[|rs| - 1].first {
      InsertedDescends(rs[..|rs| - 1], r);
    }
  }

  predicate DistinctStarts(rs: seq<Range>) {
    forall i, j | 0 <= i < j < |rs| :: rs[i].first != rs[j].first
  }

  lemma {:induction false} SortedKeeps(rs: seq<Range>)
    ensures multiset(SortDescending(rs)) == multiset(rs)
  {
    if rs != [] {
      SortedKeeps(rs[..|rs| - 1]);
      InsertedIs(SortDescending(rs[..|rs| - 1]), rs[|rs| - 1]);
      SplitLast(rs);
    }
  }

  lemma StartsDiffer(rs: seq<Range>, x: Range)
    requires rs != [] && DistinctStarts(rs) && x in multiset(rs[..|rs| - 1])
    ensures x.first != rs[|rs| - 1].first
  {
    var i :| 0 <= i < |rs| - 1 && rs[i] == x;
  }

  lemma {:induction false} SortedDescends(rs: seq<Range>)
    requires DistinctStarts(rs)
    ensures Descending(SortDescending(rs))
  {
    if rs != [] {
      var sorted := SortDescending(rs[..|rs| - 1]);
      SortedDescends(rs[..|rs| - 1]);
      SortedKeeps(rs[..|rs| - 1]);
      forall k | 0 <= k < |sorted| ensures sorted[k].first != rs[|rs| - 1].first {
        assert sorted[k] in multiset(sorted);
        StartsDiffer(rs, sorted[k]);
      }
      InsertedDescends(sorted, rs[|rs| - 1]);
    }
  }

  // ---------- the whole pass ----------

  predicate IsBlankLine(line: string) {
    Trim(line) == ""
  }

  predicate EndsBlank(lines: seq<string>) {
    lines != [] && IsBlankLine(lines[|lines| - 1])
  }

  /** A blank line behind a blank line is left out. */
  function Collapsed(lines: seq<string>): seq<string> {
    if lines == [] then []
    else
      var front, line := lines[..|lines| - 1], lines[|lines| - 1];
      if IsBlankLine(line) && EndsBlank(front) then Collapsed(front) else Collapsed(front) + [line]
  }

  method Collapse(lines: seq<string>) returns (cleaned: seq<string>)
    ensures cleaned == Collapsed(lines)
  {
    cleaned := [];
    var prevBlank := false;
    for i := 0 to |lines|
      invariant cleaned == Collapsed(lines[..i]) && prevBlank == EndsBlank(lines[..i])
    {
      assert lines[..i + 1][..i] == lines[..i];
      var isBlank := IsBlankLine(lines[i]);
      if !(isBlank && prevBlank) {
        cleaned := cleaned + [lines[i]];
        prevBlank := isBlank;
      }
    }
    assert lines[..|lines|] == lines;
  }

  /** The line ranges of the ungrouped rules that were found, class by class. */
  function Candidates(found: seq<Option<Rule>>): seq<Range> {
    if found == [] then []
    else
      var rule := found[|found| - 1];
      Candidates(found[..|found| - 1]) + (if rule.Some? && !rule.value.isPartOfGroup then [rule.value.lines] else [])
  }

  function Groups(found: seq<Option<Rule>>): nat {
    if found == [] then 0
    else
      var rule := found[|found| - 1];
      Groups(found[..|found| - 1]) + (if rule.Some? && rule.value.isPartOfGroup then 1 else 0)
  }

  /** Every rule that was found lies in the file. */
  predicate InFile(found: seq<Option<Rule>>, n: nat) {
    forall k | 0 <= k < |found| && found[k].Some? :: found[k].value.lines.first <= found[k].value.lines.last < n
  }

  lemma {:induction false} CandidatesValid(found: seq<Option<Rule>>, n: nat)
    requires InFile(found, n)
    ensures Valid(Candidates(found), n)
  {
    if found != [] {
      assert found[|found| - 1].Some? ==> found[|found| - 1].value.lines.last < n;
      CandidatesValid(found[..|found| - 1], n);
    }
  }

  lemma AcceptedAppend(candidates: seq<Range>, rule: Range)
    ensures Accepted(candidates + [rule])
            == if OverlapsAny(rule, Accepted(candidates)) then Accepted(candidates) else Accepted(candidates) + [rule]
  {
    assert (candidates + [rule])[..|candidates|] == candidates;
  }

  method AcceptRules(found: seq<Option<Rule>>) returns (rulesToRemove: seq<Range>, skipped: nat)
    ensures rulesToRemove == Accepted(Candidates(found)) && skipped == Groups(found)
  {
    rulesToRemove, skipped := [], 0;
    for i := 0 to |found|
      invariant rulesToRemove == Accepted(Candidates(found[..i])) && skipped == Groups(found[..i])
    {
      assert found[..i + 1][..i] == found[..i];
      var rule := found[i];
      if rule.Some? && !rule.value.isPartOfGroup {
        AcceptedAppend(Candidates(found[..i]), rule.value.lines);
        if !OverlapsAny(rule.value.lines, rulesToRemove) {
          rulesToRemove := rulesToRemove + [rule.value.lines];
        }
      } else {
        assert Candidates(found[..i + 1]) == Candidates(found[..i]);
        if rule.Some? {
          skipped := skipped + 1;
        }
      }
    }
    assert found[..|found|] == found;
  }

  lemma SortedValid(rs: seq<Range>, n: nat)
    requires Valid(rs, n)
    ensures Valid(SortDescending(rs), n) && |SortDescending(rs)| == |rs|
  {
    SortedKeeps(rs);
    var sorted := SortDescending(rs);
    assert |sorted| == |multiset(sorted)| == |multiset(rs)|;
    forall k | 0 <= k < |sorted| ensures sorted[k].first <= sorted[k].last < n {
      assert sorted[k] in multiset(rs);
    }
  }

  method SpliceAll(content: seq<string>, rules: seq<Range>) returns (lines: seq<string>)
    requires Valid(rules, |content|)
    ensures lines == Spliced(content, rules, |content|)
  {
    lines := content;
    for i := 0 to |rules|
      invariant Valid(rules[..i], |content|) && lines == Spliced(content, rules[..i], |content|)
    {
      assert rules[..i + 1][..i] == rules[..i];
      lines := Splice(lines, rules[i].first, Size(rules[i]));
    }
    assert rules[..|rules|] == rules;
  }

  /** The file as it is written back, or `None` when it stays as it is. */
  method RemoveRules(content: seq<string>, found: seq<Option<Rule>>, dryRun: bool)
    returns (written: Option<seq<string>>, removed: nat, skipped: nat)
    requires InFile(found, |content|)
    ensures var rs := Accepted(Candidates(found));
            && removed == |rs| && skipped == Groups(found)
            && (written.Some? <==> rs != [] && !dryRun)
            && Valid(SortDescending(rs), |content|)
            && (written.Some? ==> written.value == Collapsed(Spliced(content, SortDescending(rs), |content|)))
  {
    CandidatesValid(found, |content|);
    AcceptedIs(Candidates(found), |content|);
    var rulesToRemove;
    rulesToRemove, skipped := AcceptRules(found);
    removed := |rulesToRemove|;
    SortedValid(rulesToRemove, |content|);
    rulesToRemove := SortDescending(rulesToRemove);
    if |rulesToRemove| == 0 {
      return None, removed, skipped;
    }
    var lines := SpliceAll(content, rulesToRemove);
    var cleaned := Collapse(lines);
    written := if dryRun then None else Some(cleaned);
  }
}
