/** Which lines the rule of a class takes up: `findRuleForClass`, scripts/find-unused-css.ts:254-359. */
module CssRules {
  import opened Options
  import opened Text

  /** Lines `first` to `last`, both included. */
  datatype Range = Range(first: nat, last: nat)

  datatype Rule = Rule(lines: Range, isPartOfGroup: bool)

  predicate Opens(line: string) {
    '{' in line
  }

  predicate Closes(line: string) {
    '}' in line
  }

  /** Opening minus closing braces. */
  function LineDepth(line: string): int {
    if line == "" then 0
    else
      var c := line[|line| - 1];
      LineDepth(line[..|line| - 1]) + (if c == '{' then 1 else if c == '}' then -1 else 0)
  }

  function Depth(lines: seq<string>, from: nat, to: nat): int
    requires from <= to <= |lines|
  {
    if from == to then 0 else Depth(lines, from, to - 1) + LineDepth(lines[to - 1])
  }

  /** The first line of the selector: at an opening brace, behind a closing one, or the top of the file. */
  function ScanBack(lines: seq<string>, at: nat, i: nat): (start: nat)
    requires i <= at < |lines|
    ensures start <= at
  {
    if Opens(lines[i]) then i
    else if Closes(lines[i]) && i != at then i + 1
    else if i == 0 then 0
    else ScanBack(lines, at, i - 1)
  }

  function FirstOpen(lines: seq<string>, from: nat): (line: Option<nat>)
    requires from <= |lines|
    ensures line.Some? ==> from <= line.value < |lines| && Opens(lines[line.value])
    ensures forall k | from <= k < (if line.Some? then line.value else |lines|) :: !Opens(lines[k])
    decreases |lines| - from
  {
    if from == |lines| then None else if Opens(lines[from]) then Some(from) else FirstOpen(lines, from + 1)
  }

  /** Behind line `k` as many braces are closed as opened since line `brace`. */
  predicate Balanced(lines: seq<string>, brace: nat, k: nat)
    requires brace <= k < |lines|
  {
    Depth(lines, brace, k + 1) == 0
  }

  predicate EndsAt(lines: seq<string>, brace: nat, end: nat) {
    brace <= end < |lines| && Balanced(lines, brace, end) && forall k | brace <= k < end :: !Balanced(lines, brace, k)
  }

  predicate NeverEnds(lines: seq<string>, brace: nat) {
    forall k | brace <= k < |lines| :: !Balanced(lines, brace, k)
  }

  predicate StartsWith(s: string, prefix: string) {
    prefix <= s
  }

  predicate StartsComment(line: string) {
    StartsWith(Trim(line), "/*") || StartsWith(Trim(line), "*")
  }

  predicate LooksLikeComment(line: string) {
    StartsComment(line) || Trim(line) == ""
  }

  function CommentTop(lines: seq<string>, i: nat): (top: nat)
    requires i <= |lines|
    ensures top <= i
  {
    if i > 0 && LooksLikeComment(lines[i - 1]) then CommentTop(lines, i - 1) else i
  }

  predicate HasBlank(lines: seq<string>, from: nat, to: nat)
    requires to <= |lines|
  {
    exists k | from <= k < to :: Trim(lines[k]) == ""
  }

  /** The comment lines right above the selector belong to the rule, unless one of them is blank. */
  function CommentStart(lines: seq<string>, start: nat): (first: nat)
    requires start <= |lines|
    ensures first <= start
  {
    var top := CommentTop(lines, start);
    if HasBlank(lines, top, start) then start else top
  }

  method CountBraces(line: string, before: int) returns (braceCount: int)
    ensures braceCount == before + LineDepth(line)
  {
    braceCount := before;
    for i := 0 to |line|
      invariant braceCount == before + LineDepth(line[..i])
    {
      assert line[..i + 1][..i] == line[..i];
      if line[i] == '{' {
        braceCount := braceCount + 1;
      }
      if line[i] == '}' {
        braceCount := braceCount - 1;
      }
    }
    assert line[..|line|] == line;
  }

  method FindEnd(lines: seq<string>, brace: nat) returns (end: Option<nat>)
    requires brace <= |lines|
    ensures end.Some? ==> EndsAt(lines, brace, end.value)
    ensures end == None ==> NeverEnds(lines, brace)
  {
    var braceCount := 0;
    for i := brace to |lines|
      invariant braceCount == Depth(lines, brace, i)
      invariant forall k | brace <= k < i :: !Balanced(lines, brace, k)
    {
      braceCount := CountBraces(lines[i], braceCount);
      if braceCount == 0 {
        return Some(i);
      }
    }
    return None;
  }

  method FindCommentStart(lines: seq<string>, start: nat) returns (first: nat)
    requires start <= |lines|
    ensures first == CommentStart(lines, start)
  {
    first := start;
    while first > 0 && LooksLikeComment(lines[first - 1])
      invariant first <= start && CommentTop(lines, start) == CommentTop(lines, first)
    {
      first := first - 1;
    }
    for k := first to start
      invariant !HasBlank(lines, first, k)
    {
      if Trim(lines[k]) == "" {
        return start;
      }
    }
  }

  /** What a found rule is; `grouped` is the test of the selector lines for a top-level comma. */
  ghost predicate Found(lines: seq<string>, grouped: seq<string> -> bool, at: nat, rule: Rule)
    requires at < |lines|
  {
    var start := ScanBack(lines, at, at);
    var brace := FirstOpen(lines, start);
    && brace.Some?
    && rule.isPartOfGroup == grouped(lines[start..brace.value + 1])
    && if rule.isPartOfGroup then rule.lines == Range(start, brace.value)
       else rule.lines.first == CommentStart(lines, start) && EndsAt(lines, brace.value, rule.lines.last)
  }

  /** No opening brace follows, or the rule is no group and its braces never balance. */
  ghost predicate NotFound(lines: seq<string>, grouped: seq<string> -> bool, at: nat)
    requires at < |lines|
  {
    var start := ScanBack(lines, at, at);
    var brace := FirstOpen(lines, start);
    brace == None || (!grouped(lines[start..brace.value + 1]) && NeverEnds(lines, brace.value))
  }

  lemma FoundExcludesNotFound(lines: seq<string>, grouped: seq<string> -> bool, at: nat, rule: Rule)
    requires at < |lines| && Found(lines, grouped, at, rule)
    ensures !NotFound(lines, grouped, at)
  {
  }

  method FindRuleForClass(lines: seq<string>, grouped: seq<string> -> bool, lineIdx: nat) returns (rule: Option<Rule>)
    requires lineIdx < |lines|
    ensures rule.Some? ==> Found(lines, grouped, lineIdx, rule.value)
    ensures rule == None ==> NotFound(lines, grouped, lineIdx)
  {
    var selectorStart := lineIdx;
    var i := lineIdx;
    while true
      invariant 0 <= i <= lineIdx && ScanBack(lines, lineIdx, lineIdx) == ScanBack(lines, lineIdx, i)
      decreases i
    {
      if Opens(lines[i]) {
        selectorStart := i;
        break;
      }
      if Closes(lines[i]) && i != lineIdx {
        selectorStart := i + 1;
        break;
      }
      selectorStart := i;
      if i == 0 {
        break;
      }
      i := i - 1;
    }
    var braceLine := FirstOpen(lines, selectorStart);
    if braceLine == None {
      return None;
    }
    if grouped(lines[selectorStart..braceLine.value + 1]) {
      return Some(Rule(Range(selectorStart, braceLine.value), true));
    }
    var end := FindEnd(lines, braceLine.value);
    if end == None {
      return None;
    }
    var first := FindCommentStart(lines, selectorStart);
    return Some(Rule(Range(first, end.value), false));
  }

  // ---------- does the rule hold the class? ----------

  lemma {:induction false} ScanBackIs(lines: seq<string>, at: nat, i: nat)
    requires i <= at < |lines|
    ensures var start := ScanBack(lines, at, i);
            && (forall k | start < k <= i :: !Opens(lines[k]) && (k < at ==> !Closes(lines[k])))
            && (start <= i ==> Opens(lines[start]) || start == 0
                               || (Closes(lines[start - 1]) && !Opens(lines[start]) && (start < at ==> !Closes(lines[start]))))
            && (start > i ==> start == i + 1 && i < at && Closes(lines[i]))
  {
    if !Opens(lines[i]) && (!Closes(lines[i]) || i == at) && i > 0 {
      ScanBackIs(lines, at, i - 1);
    }
  }

  lemma {:induction false} NoBraceNoDepth(line: string)
    requires !Opens(line) && !Closes(line)
    ensures LineDepth(line) == 0
  {
    if line != "" {
      NoBraceNoDepth(line[..|line| - 1]);
    }
  }

  lemma {:induction false} DepthAcross(lines: seq<string>, brace: nat, to: nat)
    requires brace < to <= |lines|
    requires forall k | brace < k < to :: !Opens(lines[k]) && !Closes(lines[k])
    ensures Depth(lines, brace, to) == LineDepth(lines[brace])
  {
    if to > brace + 1 {
      DepthAcross(lines, brace, to - 1);
      NoBraceNoDepth(lines[to - 1]);
    } else {
      assert Depth(lines, brace, brace) == 0;
    }
  }

  /** The nearest line above that is no plain text opens and closes its braces: a whole rule on one line. */
  predicate StopsAtWholeRule(lines: seq<string>, at: nat)
    requires at < |lines|
  {
    var start := ScanBack(lines, at, at);
    start < at && Opens(lines[start]) && LineDepth(lines[start]) == 0
  }

  /**
   * The rule that is found spans the line it was asked for, except when the backward scan stops at
   * a rule written on a single line above: then that rule is returned in its place.
   */
  lemma RuleSpansLineIff(lines: seq<string>, grouped: seq<string> -> bool, at: nat, rule: Rule)
    requires at < |lines| && Found(lines, grouped, at, rule) && !rule.isPartOfGroup
    ensures rule.lines.first <= at && rule.lines.first <= rule.lines.last < |lines|
    ensures at <= rule.lines.last <==> !StopsAtWholeRule(lines, at)
  {
    var start := ScanBack(lines, at, at);
    var brace := FirstOpen(lines, start).value;
    ScanBackIs(lines, at, at);
    if start < at && Opens(lines[start]) {
      assert brace == start;
      if rule.lines.last < at {
        DepthAcross(lines, brace, rule.lines.last + 1);
      } else {
        assert !Balanced(lines, brace, start);
        DepthAcross(lines, brace, start + 1);
      }
    } else {
      assert brace >= at;
    }
  }

  // ---------- two rules of one file ----------

  /** When the scan from a later line passes an earlier one, both end at the same selector. */
  lemma {:induction false} ScanShared(lines: seq<string>, upper: nat, lower: nat, i: nat)
    requires upper < lower < |lines| && i <= lower && ScanBack(lines, lower, i) <= upper
    ensures i >= upper ==> ScanBack(lines, lower, i) == ScanBack(lines, upper, upper)
    ensures i <= upper && (i == upper ==> !Closes(lines[i]) || Opens(lines[i])) ==> ScanBack(lines, lower, i) == ScanBack(lines, upper, i)
    decreases i
  {
    if !Opens(lines[i]) && (!Closes(lines[i]) || i == lower) && i > 0 {
      ScanShared(lines, upper, lower, i - 1);
    }
  }

  lemma {:induction false} TopIsBelow(lines: seq<string>, at: nat, i: nat)
    requires at < i <= |lines| && !LooksLikeComment(lines[at])
    ensures at < CommentTop(lines, i)
  {
    if LooksLikeComment(lines[i - 1]) {
      TopIsBelow(lines, at, i - 1);
    }
  }

  lemma SameSelectorSameRule(lines: seq<string>, grouped: seq<string> -> bool, at: nat, other: nat, rule: Rule, next: Rule)
    requires at < |lines| && other < |lines| && ScanBack(lines, at, at) == ScanBack(lines, other, other)
    requires Found(lines, grouped, at, rule) && Found(lines, grouped, other, next)
    ensures rule == next
  {
  }

  /**
   * For a class further down, the rule that is found is the same or begins below the line of the upper
   * class. So no rule begins above one that was found for an upper class, unless it is the same one.
   */
  lemma LowerRuleIsSameOrBelow(lines: seq<string>, grouped: seq<string> -> bool, upper: nat, lower: nat, rule: Rule, next: Rule)
    requires upper <= lower < |lines| && !LooksLikeComment(lines[upper])
    requires Found(lines, grouped, upper, rule) && !rule.isPartOfGroup
    requires Found(lines, grouped, lower, next) && !next.isPartOfGroup
    ensures next == rule || next.lines.first > upper >= rule.lines.first
  {
    RuleSpansLineIff(lines, grouped, upper, rule);
    if upper == lower {
      SameSelectorSameRule(lines, grouped, upper, lower, rule, next);
    } else if ScanBack(lines, lower, lower) <= upper {
      ScanShared(lines, upper, lower, lower);
      SameSelectorSameRule(lines, grouped, upper, lower, rule, next);
    } else {
      TopIsBelow(lines, upper, ScanBack(lines, lower, lower));
    }
  }

  /** The one-line rule of `.ab` is what is found for the class `.cd` below it. */
  lemma WholeRuleAboveIsTaken(grouped: seq<string> -> bool)
    requires !grouped([".ab{}"])
    ensures var lines := [".ab{}", ".cd", "{}"];
            StopsAtWholeRule(lines, 1) && Found(lines, grouped, 1, Rule(Range(0, 0), false))
  {
    var lines := [".ab{}", ".cd", "{}"];
    assert ".ab{}"[3] == '{';
    assert !Opens(".cd") && !Closes(".cd");
    assert ScanBack(lines, 1, 1) == ScanBack(lines, 1, 0) == 0;
    assert LineDepth(".ab{}") == LineDepth(".ab{") - 1 == LineDepth(".ab") == 0 by {
      assert ".ab{}"[..4] == ".ab{" && ".ab{"[..3] == ".ab";
      NoBraceNoDepth(".ab");
    }
    assert Depth(lines, 0, 1) == Depth(lines, 0, 0) + LineDepth(lines[0]);
    assert Balanced(lines, 0, 0);
    assert lines[0..1] == [".ab{}"];
  }
}
