/**
 * The text of a style sheet character by character: which names a line lists, where a selector begins, which
 * comment lines belong to a rule and where its braces balance (scripts/find-unused-css.ts).
 */
module CssLaws {
  import opened Options
  import opened Text
  import opened CssRules
  import opened CssRemoval
  import opened CssClasses

  // ---------- names ----------

  /** A letter or an underscore. */
  predicate BeginsName(c: char) {
    'a' <= c <= 'z' || 'A' <= c <= 'Z' || c == '_'
  }

  /** A letter, a digit, an underscore or a hyphen. */
  predicate ContinuesName(c: char) {
    'a' <= c <= 'z' || 'A' <= c <= 'Z' || '0' <= c <= '9' || c == '_' || c == '-'
  }

  /** At `i` there is a dot, and behind it exactly this name. */
  predicate NamedAt(line: string, i: nat, name: string) {
    && i + 1 + |name| <= |line| && line[i] == '.' && name != "" && line[i + 1..i + 1 + |name|] == name
    && BeginsName(name[0]) && (forall k | 0 <= k < |name| :: ContinuesName(name[k]))
    && (i + 1 + |name| < |line| ==> !ContinuesName(line[i + 1 + |name|]))
  }

  lemma {:induction false} NameEndIs(line: string, i: nat)
    requires i <= |line|
    ensures forall k | i <= k < NameEnd(line, i) :: ContinuesName(line[k])
    ensures NameEnd(line, i) < |line| ==> !ContinuesName(line[NameEnd(line, i)])
    decreases |line| - i
  {
    if i < |line| && IsNameChar(line[i]) { NameEndIs(line, i + 1); }
  }

  /** The name behind the dot at `i` is the one that is taken. */
  lemma NameTaken(line: string, i: nat, name: string)
    requires i + 1 < |line| && line[i] == '.' && IsNameStart(line[i + 1])
    ensures NamedAt(line, i, name) <==> name == line[i + 1..NameEnd(line, i + 2)]
  {
    var end := NameEnd(line, i + 2);
    NameEndIs(line, i + 2);
    assert forall k | i + 1 <= k < end :: ContinuesName(line[k]);
    if NamedAt(line, i, name) {
      var stop := i + 1 + |name|;
      forall k | i + 1 <= k < stop ensures ContinuesName(line[k]) {
        assert line[k] == name[k - i - 1];
      }
      assert stop == end;
    } else if name == line[i + 1..end] {
      assert forall k | 0 <= k < |name| :: name[k] == line[i + 1 + k];
    }
  }

  lemma NoNameHere(line: string, i: nat, name: string)
    requires i < |line| && !(i + 1 < |line| && line[i] == '.' && IsNameStart(line[i + 1]))
    ensures !NamedAt(line, i, name)
  {
    assert name != "" && i + 1 + |name| <= |line| && line[i + 1..i + 1 + |name|] == name ==> name[0] == line[i + 1];
  }

  lemma {:induction false} NamesFromIff(line: string, i: nat, name: string)
    requires i <= |line|
    ensures name in NamesFrom(line, i) <==> exists j :: i <= j && NamedAt(line, j, name)
    decreases |line| - i
  {
    if i + 1 >= |line| {
    } else if line[i] == '.' && IsNameStart(line[i + 1]) {
      var end := NameEnd(line, i + 2);
      NameEndIs(line, i + 2);
      NameTaken(line, i, name);
      NamesFromIff(line, end, name);
      forall j | i < j < end ensures !NamedAt(line, j, name) {
        assert ContinuesName(line[j]);
      }
    } else {
      NoNameHere(line, i, name);
      NamesFromIff(line, i + 1, name);
    }
  }

  /** Behind white space the line begins with a star or with a slash and a star. */
  predicate BeginsComment(line: string) {
    exists k | 0 <= k < |line| ::
      OnlyWhite(line[..k]) && (line[k] == '*' || (line[k] == '/' && k + 1 < |line| && line[k + 1] == '*'))
  }

  /** The first character that is not white is at one place only. */
  lemma FirstNonWhite(line: string, before: string, rest: string)
    requires line == before + rest && IsBlank(before) && (rest != "" ==> !IsWhite(rest[0]))
    ensures forall k | 0 <= k < |line| && IsBlank(line[..k]) && !IsWhite(line[k]) :: rest != "" && k == |before|
    ensures line[..|before|] == before && (rest != "" ==> line[|before|] == rest[0])
  {
    var n := |before|;
    assert forall k | 0 <= k < n :: line[k] == before[k];
    if rest != "" {
      assert line[n] == rest[0];
      assert forall k | n < k < |line| :: line[..k][n] == line[n];
    }
  }

  lemma SlashOrStar(c: char)
    requires c == '*' || c == '/'
    ensures !IsWhite(c)
  {
  }

  lemma StartsCommentIff(line: string)
    ensures StartsComment(line) <==> BeginsComment(line)
  {
    var cut := TrimStartCuts(line);
    var rest := TrimStart(line);
    var kept := TrimEndCuts(rest);
    assert line == line[..cut] + rest;
    FirstNonWhite(line, line[..cut], rest);
    forall k | 0 <= k < |line| ensures OnlyWhite(line[..k]) <==> IsBlank(line[..k]) {
      BlankIsOnlyWhite(line[..k]);
    }
    SlashOrStar('*');
    SlashOrStar('/');
    assert "/*"[0] == '/' && "/*"[1] == '*' && "*"[0] == '*';
    StarKept(rest, kept);
    assert forall k | 0 <= k < |rest| :: line[cut + k] == rest[k];
  }

  /** Cutting white space off the end does not touch the beginning of a comment. */
  lemma StarKept(rest: string, kept: nat)
    requires kept <= |rest| && IsBlank(rest[kept..]) && (rest != "" ==> !IsWhite(rest[0]))
    ensures ("/*" <= rest[..kept] || "*" <= rest[..kept])
       <==> rest != "" && (rest[0] == '*' || (rest[0] == '/' && |rest| > 1 && rest[1] == '*'))
  {
    SlashOrStar('*');
    assert "/*"[0] == '/' && "/*"[1] == '*' && "*"[0] == '*';
    assert forall k | kept <= k < |rest| :: rest[kept..][k - kept] == rest[k];
  }

  /**
   * The names a line lists, character by character: none if it begins a comment or looks like a property; otherwise
   * exactly those that stand behind a dot, up to the end of the line or a character that no name has.
   */
  lemma NamesOnIff(line: string, name: string)
    ensures name in NamesOn(line) <==>
              && !BeginsComment(line) && !(':' in line && '{' !in line && ',' !in line)
              && exists i: nat :: NamedAt(line, i, name)
  {
    StartsCommentIff(line);
    NamesFromIff(line, 0, name);
  }

  // ---------- braces ----------

  function AllText(lines: seq<string>): string {
    if lines == [] then "" else AllText(lines[..|lines| - 1]) + lines[|lines| - 1]
  }

  lemma {:induction false} LineDepthCounts(line: string)
    ensures LineDepth(line) + multiset(line)['}'] == multiset(line)['{']
  {
    if line != "" {
      LineDepthCounts(line[..|line| - 1]);
      assert line == line[..|line| - 1] + [line[|line| - 1]];
    }
  }

  lemma MoreText(lines: seq<string>, from: nat, end: nat)
    requires from < end <= |lines|
    ensures multiset(AllText(lines[from..end])) == multiset(AllText(lines[from..end - 1])) + multiset(lines[end - 1])
  {
    assert lines[from..end][..end - 1 - from] == lines[from..end - 1];
  }

  /** The depth of some lines is how many more braces they open than they close. */
  lemma {:induction false} DepthCounts(lines: seq<string>, from: nat, end: nat)
    requires from <= end <= |lines|
    ensures var text := AllText(lines[from..end]);
            Depth(lines, from, end) + multiset(text)['}'] == multiset(text)['{']
  {
    if from == end {
      assert lines[from..end] == [];
    } else {
      DepthCounts(lines, from, end - 1);
      LineDepthCounts(lines[end - 1]);
      MoreText(lines, from, end);
    }
  }

  // ---------- where a selector begins ----------

  /**
   * The selector of a line begins at `start`: at the nearest line from there upwards with an opening brace, or just below
   * the nearest one with a closing brace, whichever is met first, or at the top. The line's own closing braces
   * do not count.
   */
  predicate SelectorBegins(lines: seq<string>, at: nat, start: nat)
    requires at < |lines|
  {
    && start <= at
    && (forall k | start < k <= at :: '{' !in lines[k])
    && (forall k | start < k < at :: '}' !in lines[k])
    && ('{' in lines[start]
        || ((start < at ==> '}' !in lines[start]) && (start == 0 || ('}' in lines[start - 1] && '{' !in lines[start - 1]))))
  }

  lemma {:induction false} ScanBackFrom(lines: seq<string>, at: nat, i: nat)
    requires i <= at < |lines| && (forall k | i < k <= at :: '{' !in lines[k]) && (forall k | i < k < at :: '}' !in lines[k])
    ensures SelectorBegins(lines, at, ScanBack(lines, at, i))
  {
    if !Opens(lines[i]) && (!Closes(lines[i]) || i == at) && i > 0 {
      ScanBackFrom(lines, at, i - 1);
    }
  }

  /** There is only one such line, and it is the one that the scan finds. */
  lemma ScanBackIff(lines: seq<string>, at: nat, start: nat)
    requires at < |lines|
    ensures SelectorBegins(lines, at, start) <==> start == ScanBack(lines, at, at)
  {
    var found := ScanBack(lines, at, at);
    ScanBackFrom(lines, at, at);
  }

  // ---------- comments ----------

  lemma LooksLikeCommentIff(line: string)
    ensures LooksLikeComment(line) <==> BeginsComment(line) || OnlyWhite(line)
    ensures Trim(line) == "" <==> OnlyWhite(line)
  {
    StartsCommentIff(line);
    TrimEmptyIffBlank(line);
    BlankIsOnlyWhite(line);
  }

  /** Comment lines and blank lines from `from` up to `end`. */
  predicate CommentBlock(lines: seq<string>, from: nat, end: nat)
    requires end <= |lines|
  {
    forall k | from <= k < end :: BeginsComment(lines[k]) || OnlyWhite(lines[k])
  }

  lemma {:induction false} CommentTopIs(lines: seq<string>, i: nat)
    requires i <= |lines|
    ensures var top := CommentTop(lines, i);
            && CommentBlock(lines, top, i)
            && (top > 0 ==> !BeginsComment(lines[top - 1]) && !OnlyWhite(lines[top - 1]))
  {
    if i > 0 {
      LooksLikeCommentIff(lines[i - 1]);
      if LooksLikeComment(lines[i - 1]) { CommentTopIs(lines, i - 1); }
    }
  }

  /** The first line of the block of comment and blank lines right above `start`. */
  predicate IsTop(lines: seq<string>, top: nat, start: nat)
    requires start <= |lines|
  {
    && top <= start && CommentBlock(lines, top, start)
    && (top == 0 || (!BeginsComment(lines[top - 1]) && !OnlyWhite(lines[top - 1])))
  }

  /**
   * Which lines above a selector belong to its rule: the whole block of comment and blank lines right above it
   * if none of them is blank, and none of it otherwise.
   */
  lemma CommentStartIs(lines: seq<string>, start: nat, top: nat)
    requires start <= |lines| && IsTop(lines, top, start)
    ensures CommentStart(lines, start) == if exists k | top <= k < start :: OnlyWhite(lines[k]) then start else top
  {
    var found := CommentTop(lines, start);
    CommentTopIs(lines, start);
    assert top == found;
    forall k | found <= k < start ensures Trim(lines[k]) == "" <==> OnlyWhite(lines[k]) {
      LooksLikeCommentIff(lines[k]);
    }
  }

  // ---------- the rule of a class ----------

  /** From line `brace` to line `k` as many braces are closed as opened. */
  predicate BracesMatch(lines: seq<string>, brace: nat, k: nat)
    requires brace <= k < |lines|
  {
    var text := AllText(lines[brace..k + 1]);
    multiset(text)['{'] == multiset(text)['}']
  }

  /** They match at `last` for the first time. */
  predicate BalancesFirst(lines: seq<string>, brace: nat, last: nat)
    requires brace <= last < |lines|
  {
    forall k | brace <= k <= last :: BracesMatch(lines, brace, k) <==> k == last
  }

  lemma EndBalancesFirst(lines: seq<string>, brace: nat, last: nat)
    requires EndsAt(lines, brace, last)
    ensures BalancesFirst(lines, brace, last)
  {
    forall k | brace <= k <= last ensures BracesMatch(lines, brace, k) <==> k == last {
      DepthCounts(lines, brace, k + 1);
      assert Balanced(lines, brace, k) <==> k == last;
    }
  }

  /**
   * What a rule that is found is, in characters: from where its selector begins the first opening brace is its own, and
   * without a group it ends at the first line up to which as many braces are closed as opened.
   */
  lemma FoundIs(lines: seq<string>, grouped: seq<string> -> bool, at: nat, rule: Rule) returns (start: nat, brace: nat)
    requires at < |lines| && Found(lines, grouped, at, rule)
    ensures SelectorBegins(lines, at, start) && start <= brace < |lines|
    ensures '{' in lines[brace] && forall k | start <= k < brace :: '{' !in lines[k]
    ensures rule.isPartOfGroup == grouped(lines[start..brace + 1])
    ensures rule.isPartOfGroup ==> rule.lines == Range(start, brace)
    ensures !rule.isPartOfGroup ==> brace <= rule.lines.last < |lines| && BalancesFirst(lines, brace, rule.lines.last)
    ensures !rule.isPartOfGroup ==> rule.lines.first == CommentStart(lines, start)
  {
    start := ScanBack(lines, at, at);
    brace := FirstOpen(lines, start).value;
    ScanBackIff(lines, at, start);
    assert Opens(lines[brace]);
    assert forall k | start <= k < brace :: !Opens(lines[k]);
    if !rule.isPartOfGroup { EndBalancesFirst(lines, brace, rule.lines.last); }
  }

  // ---------- blank lines ----------

  /** Line by line: a blank line behind a blank line is left out, and every other line is kept. */
  lemma CollapseAdds(lines: seq<string>, line: string)
    ensures Collapsed([]) == []
    ensures Collapsed(lines + [line])
         == Collapsed(lines) + if OnlyWhite(line) && lines != [] && OnlyWhite(lines[|lines| - 1]) then [] else [line]
  {
    LooksLikeCommentIff(line);
    if lines != [] { LooksLikeCommentIff(lines[|lines| - 1]); }
    assert (lines + [line])[..|lines|] == lines;
  }
}
