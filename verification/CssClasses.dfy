/**
 * Unused classes from the style sheet to the file that is written back: `extractClassSelectors` and the
 * way to `removeUnusedRules` in scripts/find-unused-css.ts.
 */
module CssClasses {
  import opened Options
  import opened Sequences
  import opened Text
  import opened StableSort
  import opened CssRules
  import opened CssRemoval
  import opened CssRemovalResults

  // ---------- the classes of a style sheet ----------

  /** A class and the line, counted from 0, on which its name was seen first. */
  datatype Class = Class(name: string, line: nat)

  predicate IsNameStart(c: char) {
    'a' <= c <= 'z' || 'A' <= c <= 'Z' || c == '_'
  }

  predicate IsNameChar(c: char) {
    IsNameStart(c) || '0' <= c <= '9' || c == '-'
  }

  function NameEnd(line: string, i: nat): (end: nat)
    requires i <= |line|
    ensures i <= end <= |line|
    decreases |line| - i
  {
    if i < |line| && IsNameChar(line[i]) then NameEnd(line, i + 1) else i
  }

  /** The matches of `/\.([a-zA-Z_][a-zA-Z0-9_-]*)/g` from `i` on. */
  function NamesFrom(line: string, i: nat): seq<string>
    requires i <= |line|
    decreases |line| - i
  {
    if i + 1 >= |line| then []
    else if line[i] == '.' && IsNameStart(line[i + 1]) then
      [line[i + 1..NameEnd(line, i + 2)]] + NamesFrom(line, NameEnd(line, i + 2))
    else NamesFrom(line, i + 1)
  }

  /** A comment or, most likely, a property value. */
  predicate IsSkipped(line: string) {
    StartsComment(line) || (':' in line && '{' !in line && ',' !in line)
  }

  /** The class names a line is searched for. */
  function NamesOn(line: string): seq<string> {
    if IsSkipped(line) then [] else NamesFrom(line, 0)
  }

  predicate Listed(classes: seq<Class>, name: string) {
    exists k | 0 <= k < |classes| :: classes[k].name == name
  }

  /** A name of at least two characters, with the first line of the file that names it. */
  ghost predicate IsClass(lines: seq<string>, c: Class) {
    c.line < |lines| && |c.name| >= 2 && c.name in NamesOn(lines[c.line])
    && forall i | 0 <= i < c.line :: c.name !in NamesOn(lines[i])
  }

  predicate Follows(a: Class, b: Class) {
    a.line <= b.line && a.name != b.name
  }

  /** The classes come line by line, each once, from lines that name them. */
  ghost predicate Extracted(lines: seq<string>, classes: seq<Class>) {
    && (forall i, j | 0 <= i < j < |classes| :: Follows(classes[i], classes[j]))
    && (forall c | c in classes :: IsClass(lines, c))
  }

  lemma ExtractedAppend(lines: seq<string>, classes: seq<Class>, c: Class)
    requires Extracted(lines, classes) && IsClass(lines, c) && forall b | b in classes :: Follows(b, c)
    ensures Extracted(lines, classes + [c])
  {
    assert forall k | 0 <= k < |classes| :: (classes + [c])[k] == classes[k] && classes[k] in classes;
  }

  lemma ExtractedFront(lines: seq<string>, classes: seq<Class>)
    requires Extracted(lines, classes) && classes != []
    ensures Extracted(lines, classes[..|classes| - 1]) && IsClass(lines, classes[|classes| - 1])
    ensures forall b | b in classes[..|classes| - 1] :: b in classes && Follows(b, classes[|classes| - 1])
  {
    var front, last := classes[..|classes| - 1], classes[|classes| - 1];
    assert last in classes;
    forall b | b in front ensures b in classes && Follows(b, last) {
      var i :| 0 <= i < |front| && front[i] == b;
      assert classes[i] == b;
    }
  }

  /** Every name of at least two characters on the first `n` lines is listed. */
  ghost predicate Complete(lines: seq<string>, n: nat, classes: seq<Class>)
    requires n <= |lines|
  {
    forall i, name | 0 <= i < n && name in NamesOn(lines[i]) && |name| >= 2 :: Listed(classes, name)
  }

  /** One name, if it is long enough and new. */
  method AddClass(lines: seq<string>, lineNum: nat, name: string, before: seq<Class>) returns (classes: seq<Class>)
    requires lineNum < |lines| && name in NamesOn(lines[lineNum]) && Extracted(lines, before)
    requires Complete(lines, lineNum, before) && forall c | c in before :: c.line <= lineNum
    ensures Extracted(lines, classes) && before <= classes && (forall c | c in classes :: c.line <= lineNum)
    ensures |name| >= 2 ==> Listed(classes, name)
  {
    classes := before;
    if |name| < 2 {
      return;
    }
    if !Listed(before, name) {
      assert forall k | 0 <= k < |before| :: before[k].name != name;
      ExtractedAppend(lines, before, Class(name, lineNum));
      classes := before + [Class(name, lineNum)];
      assert classes[|before|].name == name;
    }
  }

  /** The names of one line. */
  method ExtractLine(lines: seq<string>, lineNum: nat, before: seq<Class>) returns (classes: seq<Class>)
    requires lineNum < |lines| && Extracted(lines, before)
    requires Complete(lines, lineNum, before) && forall c | c in before :: c.line <= lineNum
    ensures Extracted(lines, classes) && before <= classes && (forall c | c in classes :: c.line <= lineNum)
    ensures forall name | name in NamesOn(lines[lineNum]) && |name| >= 2 :: Listed(classes, name)
  {
    classes := before;
    if IsSkipped(lines[lineNum]) {
      return;
    }
    var names := NamesFrom(lines[lineNum], 0);
    for i := 0 to |names|
      invariant Extracted(lines, classes) && before <= classes && (forall c | c in classes :: c.line <= lineNum)
      invariant forall j | 0 <= j < i && |names[j]| >= 2 :: Listed(classes, names[j])
    {
      ghost var was := classes;
      CompleteStays(lines, lineNum, before, classes);
      classes := AddClass(lines, lineNum, names[i], classes);
      forall j | 0 <= j < i && |names[j]| >= 2 ensures Listed(classes, names[j]) {
        ListedStays(was, classes, names[j]);
      }
    }
  }

  lemma ListedStays(some: seq<Class>, classes: seq<Class>, name: string)
    requires some <= classes && Listed(some, name)
    ensures Listed(classes, name)
  {
    var k :| 0 <= k < |some| && some[k].name == name;
    assert classes[k].name == name;
  }

  lemma CompleteStays(lines: seq<string>, n: nat, some: seq<Class>, classes: seq<Class>)
    requires n <= |lines| && Complete(lines, n, some) && some <= classes
    ensures Complete(lines, n, classes)
  {
    forall i, name | 0 <= i < n && name in NamesOn(lines[i]) && |name| >= 2 ensures Listed(classes, name) {
      ListedStays(some, classes, name);
    }
  }

  lemma CompleteNext(lines: seq<string>, n: nat, some: seq<Class>, classes: seq<Class>)
    requires n < |lines| && Complete(lines, n, some) && some <= classes
    requires forall name | name in NamesOn(lines[n]) && |name| >= 2 :: Listed(classes, name)
    ensures Complete(lines, n + 1, classes)
  {
    forall i, name | 0 <= i < n + 1 && name in NamesOn(lines[i]) && |name| >= 2 ensures Listed(classes, name) {
      if i < n { ListedStays(some, classes, name); }
    }
  }

  /** Every class of the file is in the list, with its line. */
  lemma ListsEachClass(lines: seq<string>, classes: seq<Class>, c: Class)
    requires Extracted(lines, classes) && Complete(lines, |lines|, classes) && IsClass(lines, c)
    ensures c in classes
  {
    assert Listed(classes, c.name);
    var k :| 0 <= k < |classes| && classes[k].name == c.name;
    assert IsClass(lines, classes[k]);
  }

  /** The classes of a file in the order of their lines, each name of two or more characters once. */
  method ExtractClassSelectors(lines: seq<string>) returns (classes: seq<Class>)
    ensures Extracted(lines, classes) && Complete(lines, |lines|, classes)
    ensures forall c :: c in classes <==> IsClass(lines, c)
  {
    classes := [];
    for lineNum := 0 to |lines|
      invariant Extracted(lines, classes) && Complete(lines, lineNum, classes)
      invariant forall c | c in classes :: c.line < lineNum
    {
      ghost var was := classes;
      classes := ExtractLine(lines, lineNum, classes);
      CompleteNext(lines, lineNum, was, classes);
    }
    forall c | IsClass(lines, c) ensures c in classes {
      ListsEachClass(lines, classes, c);
    }
  }

  // ---------- lines with classes are no comment lines ----------

  lemma {:induction false} NamesNeedDot(line: string, i: nat)
    requires i <= |line| && NamesFrom(line, i) != []
    ensures '.' in line
    decreases |line| - i
  {
    if !(line[i] == '.' && IsNameStart(line[i + 1])) {
      NamesNeedDot(line, i + 1);
    }
  }

  lemma ClassLineIsNoComment(line: string, name: string)
    requires name in NamesOn(line)
    ensures !LooksLikeComment(line)
  {
    NamesNeedDot(line, 0);
    var k :| 0 <= k < |line| && line[k] == '.';
    assert !IsWhite(line[k]);
    TrimEmptyIffBlank(line);
  }

  // ---------- the unused ones, sorted ----------

  /** The classes of the file that were found nowhere; a class that an earlier file has, too, belongs to that file. */
  function Unused(classes: seq<Class>, unused: Class -> bool): seq<Class> {
    if classes == [] then []
    else
      var last := classes[|classes| - 1];
      Unused(classes[..|classes| - 1], unused) + if unused(last) then [last] else []
  }

  predicate HigherLine(a: Class, b: Class) {
    a.line < b.line
  }

  lemma {:induction false} UnusedExtracted(lines: seq<string>, classes: seq<Class>, unused: Class -> bool)
    requires Extracted(lines, classes)
    ensures Extracted(lines, Unused(classes, unused))
    ensures forall c | c in Unused(classes, unused) :: c in classes
  {
    if classes != [] {
      var front, last := classes[..|classes| - 1], classes[|classes| - 1];
      ExtractedFront(lines, classes);
      UnusedExtracted(lines, front, unused);
      if unused(last) {
        ExtractedAppend(lines, Unused(front, unused), last);
      }
    }
  }

  /** The script sorts the unused classes by line before it lists them; they are in that order already. */
  lemma SortingChangesNothing(lines: seq<string>, classes: seq<Class>)
    requires Extracted(lines, classes)
    ensures Sorted(classes, HigherLine) == classes
  {
    forall i, j | 0 <= i < j < |classes| ensures !HigherLine(classes[j], classes[i]) {
      assert Follows(classes[i], classes[j]);
    }
    SortedAlready(classes, HigherLine);
  }

  // ---------- their rules ----------

  /** What the search for the rule of line `at` gives. */
  ghost predicate SearchGives(lines: seq<string>, grouped: seq<string> -> bool, at: nat, rule: Option<Rule>) {
    at < |lines| && if rule.Some? then Found(lines, grouped, at, rule.value) else NotFound(lines, grouped, at)
  }

  /** `found` is what the search for the rule of each class gave. */
  ghost predicate FoundFor(lines: seq<string>, grouped: seq<string> -> bool, classes: seq<Class>, found: seq<Option<Rule>>) {
    |found| == |classes| && forall k | 0 <= k < |found| :: SearchGives(lines, grouped, classes[k].line, found[k])
  }

  method FindRules(lines: seq<string>, grouped: seq<string> -> bool, classes: seq<Class>) returns (found: seq<Option<Rule>>)
    requires Extracted(lines, classes)
    ensures FoundFor(lines, grouped, classes, found)
  {
    found := [];
    for i := 0 to |classes|
      invariant |found| == i && forall k | 0 <= k < |classes| :: IsClass(lines, classes[k])
      invariant forall k | 0 <= k < i :: SearchGives(lines, grouped, classes[k].line, found[k])
    {
      var rule := FindRuleForClass(lines, grouped, classes[i].line);
      found := found + [rule];
    }
  }

  lemma FoundInFile(lines: seq<string>, grouped: seq<string> -> bool, classes: seq<Class>, found: seq<Option<Rule>>)
    requires FoundFor(lines, grouped, classes, found)
    ensures InFile(found, |lines|)
  {
    forall k | 0 <= k < |found| && found[k].Some?
      ensures found[k].value.lines.first <= found[k].value.lines.last < |lines|
    {
      if !found[k].value.isPartOfGroup {
        RuleSpansLineIff(lines, grouped, classes[k].line, found[k].value);
      }
    }
  }

  lemma {:induction false} CandidateIsFound(found: seq<Option<Rule>>, r: Range) returns (k: nat)
    requires r in Candidates(found)
    ensures k < |found| && found[k].Some? && !found[k].value.isPartOfGroup && found[k].value.lines == r
  {
    var front, last := found[..|found| - 1], found[|found| - 1];
    if r in Candidates(front) {
      k := CandidateIsFound(front, r);
    } else {
      k := |found| - 1;
    }
  }

  lemma {:induction false} FoundIsCandidate(found: seq<Option<Rule>>, k: nat)
    requires k < |found| && found[k].Some? && !found[k].value.isPartOfGroup
    ensures found[k].value.lines in Candidates(found)
  {
    if k < |found| - 1 {
      FoundIsCandidate(found[..|found| - 1], k);
    }
  }

  /** Every candidate is accepted or kept out by an accepted rule that holds an end of it. */
  lemma {:induction false} CandidateIsCovered(candidates: seq<Range>, r: Range)
    requires r in candidates && r.first <= r.last
    ensures OverlapsAny(r, Accepted(candidates))
  {
    var front, last := candidates[..|candidates| - 1], candidates[|candidates| - 1];
    var before, rs := Accepted(front), Accepted(candidates);
    if r in front {
      CandidateIsCovered(front, r);
      var k :| 0 <= k < |before| && Overlaps(r, before[k]);
      assert rs[k] == before[k];
    } else if !OverlapsAny(r, before) {
      assert rs[|before|] == r && Overlaps(r, rs[|before|]);
    }
  }

  lemma {:induction false} AcceptedAreCandidates(candidates: seq<Range>)
    ensures forall r | r in Accepted(candidates) :: r in candidates
  {
    if candidates != [] {
      AcceptedAreCandidates(candidates[..|candidates| - 1]);
      SplitLast(candidates);
    }
  }

  /** A rule found for a class never encloses one found for a class above it. */
  lemma LowerNeverEncloses(lines: seq<string>, grouped: seq<string> -> bool, classes: seq<Class>, found: seq<Option<Rule>>, i: nat, j: nat)
    requires Extracted(lines, classes) && FoundFor(lines, grouped, classes, found) && i < j < |found|
    requires found[i].Some? && !found[i].value.isPartOfGroup && found[j].Some? && !found[j].value.isPartOfGroup
    ensures !Encloses(found[j].value.lines, found[i].value.lines)
  {
    var upper := classes[i].line;
    assert Follows(classes[i], classes[j]) && IsClass(lines, classes[i]);
    ClassLineIsNoComment(lines[upper], classes[i].name);
    LowerRuleIsSameOrBelow(lines, grouped, upper, classes[j].line, found[i].value, found[j].value);
  }

  lemma FrontFound(lines: seq<string>, grouped: seq<string> -> bool, classes: seq<Class>, found: seq<Option<Rule>>)
    requires Extracted(lines, classes) && FoundFor(lines, grouped, classes, found) && found != []
    ensures Extracted(lines, classes[..|classes| - 1]) && FoundFor(lines, grouped, classes[..|classes| - 1], found[..|found| - 1])
  {
    ExtractedFront(lines, classes);
  }

  lemma DisjointExtends(rs: seq<Range>, r: Range)
    requires Disjoint(rs) && forall k | 0 <= k < |rs| :: Apart(rs[k], r)
    ensures Disjoint(rs + [r])
  {
  }

  lemma LastApart(lines: seq<string>, grouped: seq<string> -> bool, classes: seq<Class>, found: seq<Option<Rule>>, b: Range)
    requires Extracted(lines, classes) && FoundFor(lines, grouped, classes, found) && found != []
    requires found[|found| - 1].Some? && !found[|found| - 1].value.isPartOfGroup
    requires b in Candidates(found[..|found| - 1]) && !Overlaps(found[|found| - 1].value.lines, b)
    ensures Apart(b, found[|found| - 1].value.lines)
  {
    var i := CandidateIsFound(found[..|found| - 1], b);
    FoundInFile(lines, grouped, classes, found);
    LowerNeverEncloses(lines, grouped, classes, found, i, |found| - 1);
    OverlapExactly(found[|found| - 1].value.lines, b);
  }

  /**
   * The overlap test does what it is for: on every list of classes that the script can pass, the rules
   * it lets through are pairwise disjoint.
   */
  lemma {:induction false} AcceptedAreDisjoint(lines: seq<string>, grouped: seq<string> -> bool, classes: seq<Class>,
                                               found: seq<Option<Rule>>)
    requires Extracted(lines, classes) && FoundFor(lines, grouped, classes, found)
    ensures Disjoint(Accepted(Candidates(found)))
    decreases |found|
  {
    if found != [] {
      var front, last := found[..|found| - 1], found[|found| - 1];
      var before := Accepted(Candidates(front));
      FrontFound(lines, grouped, classes, found);
      AcceptedAreDisjoint(lines, grouped, classes[..|classes| - 1], front);
      if last.Some? && !last.value.isPartOfGroup {
        AcceptedAppend(Candidates(front), last.value.lines);
        AcceptedAreCandidates(Candidates(front));
        if !OverlapsAny(last.value.lines, before) {
          forall k | 0 <= k < |before| ensures Apart(before[k], last.value.lines) {
            LastApart(lines, grouped, classes, found, before[k]);
          }
          DisjointExtends(before, last.value.lines);
        }
      } else {
        assert Candidates(found) == Candidates(front);
      }
    }
  }

  // ---------- end to end ----------

  /** A rule that is removed is the one found for some unused class of the file. */
  ghost predicate RuleOfUnused(lines: seq<string>, grouped: seq<string> -> bool, unused: Class -> bool, r: Range) {
    exists c, rule :: NamedUnused(lines, unused, c) && Found(lines, grouped, c.line, rule) && !rule.isPartOfGroup && rule.lines == r
  }

  ghost predicate NamedUnused(lines: seq<string>, unused: Class -> bool, c: Class) {
    IsClass(lines, c) && unused(c)
  }

  /** No rule of an unused class stays, unless one end of it lies in a rule that goes. */
  ghost predicate EachUnusedIsCovered(lines: seq<string>, grouped: seq<string> -> bool, unused: Class -> bool, rules: seq<Range>) {
    forall c, rule | NamedUnused(lines, unused, c) && Found(lines, grouped, c.line, rule) && !rule.isPartOfGroup ::
      OverlapsAny(rule.lines, rules)
  }

  lemma {:induction false} UnusedAreUnused(classes: seq<Class>, unused: Class -> bool)
    ensures forall c :: c in Unused(classes, unused) <==> c in classes && unused(c)
  {
    if classes != [] {
      UnusedAreUnused(classes[..|classes| - 1], unused);
      assert forall c :: c in classes <==> c in classes[..|classes| - 1] || c == classes[|classes| - 1];
    }
  }

  /** The one rule that the search gives for a class is what stands in the list of found rules. */
  lemma RuleIsListed(lines: seq<string>, grouped: seq<string> -> bool, classes: seq<Class>, found: seq<Option<Rule>>, c: Class, rule: Rule)
    requires FoundFor(lines, grouped, classes, found) && c in classes
    requires c.line < |lines| && Found(lines, grouped, c.line, rule) && !rule.isPartOfGroup
    ensures rule.lines in Candidates(found)
  {
    var k :| 0 <= k < |classes| && classes[k] == c;
    assert SearchGives(lines, grouped, classes[k].line, found[k]);
    FoundExcludesNotFound(lines, grouped, c.line, rule);
    SameSelectorSameRule(lines, grouped, c.line, c.line, rule, found[k].value);
    FoundIsCandidate(found, k);
  }

  lemma UnusedRulesAreCovered(lines: seq<string>, grouped: seq<string> -> bool, unused: Class -> bool, classes: seq<Class>,
                              found: seq<Option<Rule>>)
    requires FoundFor(lines, grouped, classes, found) && forall c | NamedUnused(lines, unused, c) :: c in classes
    ensures EachUnusedIsCovered(lines, grouped, unused, Accepted(Candidates(found)))
  {
    forall c, rule | NamedUnused(lines, unused, c) && Found(lines, grouped, c.line, rule) && !rule.isPartOfGroup
      ensures OverlapsAny(rule.lines, Accepted(Candidates(found)))
    {
      RuleIsListed(lines, grouped, classes, found, c, rule);
      RuleSpansLineIff(lines, grouped, c.line, rule);
      CandidateIsCovered(Candidates(found), rule.lines);
    }
  }

  lemma AcceptedRulesAreUnused(lines: seq<string>, grouped: seq<string> -> bool, unused: Class -> bool, classes: seq<Class>,
                               found: seq<Option<Rule>>)
    requires Extracted(lines, classes) && FoundFor(lines, grouped, classes, found) && forall c | c in classes :: unused(c)
    ensures forall r | r in Accepted(Candidates(found)) :: RuleOfUnused(lines, grouped, unused, r)
  {
    AcceptedAreCandidates(Candidates(found));
    forall r | r in Accepted(Candidates(found)) ensures RuleOfUnused(lines, grouped, unused, r) {
      var k := CandidateIsFound(found, r);
      assert classes[k] in classes && NamedUnused(lines, unused, classes[k]);
    }
  }

  /**
   * One file of `--remove`: the rules that go are pairwise disjoint rules of unused classes, every other
   * rule of an unused class has an end in one of them, and what is written back is every line outside them, in
   * order, with runs of blank lines collapsed. Nothing is written for a dry run or when no rule is removed.
   */
  method RemoveUnusedRules(content: seq<string>, unused: Class -> bool, grouped: seq<string> -> bool, dryRun: bool)
    returns (written: Option<seq<string>>, removed: nat, ghost rules: seq<Range>)
    ensures Disjoint(rules) && removed == |rules| && forall r | r in rules :: RuleOfUnused(content, grouped, unused, r)
    ensures EachUnusedIsCovered(content, grouped, unused, rules)
    ensures written == if rules != [] && !dryRun then Some(Collapsed(Outside(content, rules))) else None
  {
    var classes := ExtractClassSelectors(content);
    UnusedExtracted(content, classes, unused);
    UnusedAreUnused(classes, unused);
    classes := Unused(classes, unused);
    SortingChangesNothing(content, classes);
    classes := Sorted(classes, HigherLine);
    var found := FindRules(content, grouped, classes);
    FoundInFile(content, grouped, classes, found);
    CandidatesValid(found, |content|);
    AcceptedAreDisjoint(content, grouped, classes, found);
    AcceptedRulesAreUnused(content, grouped, unused, classes, found);
    UnusedRulesAreCovered(content, grouped, unused, classes, found);
    DisjointRemoval(content, Candidates(found));
    rules := Accepted(Candidates(found));
    var skipped: nat;
    written, removed, skipped := RemoveRules(content, found, dryRun);
  }
}
