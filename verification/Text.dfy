/** The white space of JavaScript's `trim`. Every such character is a single code unit. */
module Text {

  /** White space and line terminators of ECMAScript. */
  predicate IsWhite(c: char) {
    var u := c as int;
    || 0x9 <= u <= 0xD || u == 0x20 || u == 0xA0 || u == 0x1680 || 0x2000 <= u <= 0x200A
    || u == 0x2028 || u == 0x2029 || u == 0x202F || u == 0x205F || u == 0x3000 || u == 0xFEFF
  }

  function TrimStart(s: string): string {
    if s != "" && IsWhite(s[0]) then TrimStart(s[1..]) else s
  }

  function TrimEnd(s: string): string {
    if s != "" && IsWhite(s[|s| - 1]) then TrimEnd(s[..|s| - 1]) else s
  }

  function Trim(s: string): string {
    TrimEnd(TrimStart(s))
  }

  predicate IsBlank(s: string) {
    forall k | 0 <= k < |s| :: IsWhite(s[k])
  }

  lemma {:induction false} TrimStartBlank(s: string)
    ensures TrimStart(s) == "" <==> IsBlank(s)
    ensures TrimStart(s) != "" ==> !IsWhite(TrimStart(s)[0])
  {
    if s != "" && IsWhite(s[0]) {
      TrimStartBlank(s[1..]);
      assert forall k | 1 <= k < |s| :: s[k] == s[1..][k - 1];
    }
  }

  lemma {:induction false} TrimEndBlank(s: string)
    ensures TrimEnd(s) == "" <==> IsBlank(s)
  {
    if s != "" && IsWhite(s[|s| - 1]) {
      TrimEndBlank(s[..|s| - 1]);
    }
  }

  /** A string trims to nothing exactly when it is all white space. */
  lemma TrimEmptyIffBlank(s: string)
    ensures Trim(s) == "" <==> IsBlank(s)
  {
    TrimStartBlank(s);
    TrimEndBlank(TrimStart(s));
  }

  // ---------- what trimming is ----------

  /** The code units of tab to carriage return, the space separators, the line separators and U+FEFF. */
  predicate OnlyWhite(s: string) {
    forall k | 0 <= k < |s| ::
      (s[k] as int) in {0x9, 0xA, 0xB, 0xC, 0xD, 0x20, 0xA0, 0x1680, 0x2000, 0x2001, 0x2002, 0x2003, 0x2004, 0x2005, 0x2006, 0x2007,
                        0x2008, 0x2009, 0x200A, 0x2028, 0x2029, 0x202F, 0x205F, 0x3000, 0xFEFF}
  }

  lemma BlankIsOnlyWhite(s: string)
    ensures IsBlank(s) <==> OnlyWhite(s)
  {
    forall k | 0 <= k < |s| ensures IsWhite(s[k]) <==> OnlyWhite([s[k]]) {
      assert OnlyWhite([s[k]]) <==> OnlyWhite([[s[k]][0]]);
    }
    assert OnlyWhite(s) <==> forall k | 0 <= k < |s| :: OnlyWhite([s[k]]);
  }

  lemma {:induction false} TrimStartCuts(s: string) returns (cut: nat)
    ensures cut <= |s| && TrimStart(s) == s[cut..] && IsBlank(s[..cut]) && (cut < |s| ==> !IsWhite(s[cut]))
  {
    if s != "" && IsWhite(s[0]) {
      var rest := TrimStartCuts(s[1..]);
      cut := rest + 1;
      assert s[1..][rest..] == s[cut..];
      forall k | 0 <= k < cut ensures IsWhite(s[..cut][k]) {
        if k > 0 { assert s[1..][..rest][k - 1] == s[k]; }
      }
    } else {
      cut := 0;
    }
  }

  lemma {:induction false} TrimEndCuts(s: string) returns (kept: nat)
    ensures kept <= |s| && TrimEnd(s) == s[..kept] && IsBlank(s[kept..]) && (kept > 0 ==> !IsWhite(s[kept - 1]))
  {
    if s != "" && IsWhite(s[|s| - 1]) {
      kept := TrimEndCuts(s[..|s| - 1]);
      assert s[..|s| - 1][..kept] == s[..kept];
      forall k | 0 <= k < |s| - kept ensures IsWhite(s[kept..][k]) {
        if k < |s| - kept - 1 { assert s[..|s| - 1][kept..][k] == s[kept + k]; }
      }
    } else {
      kept := |s|;
    }
  }

  /** A string is its trimmed form with white space around it, and the trimmed form has none at its ends. */
  lemma TrimIs(s: string) returns (before: string, after: string)
    ensures s == before + Trim(s) + after && OnlyWhite(before) && OnlyWhite(after)
    ensures Trim(s) != "" ==> !OnlyWhite(Trim(s)[..1]) && !OnlyWhite(Trim(s)[|Trim(s)| - 1..])
  {
    var cut := TrimStartCuts(s);
    var t := TrimStart(s);
    var kept := TrimEndCuts(t);
    before, after := s[..cut], t[kept..];
    BlankIsOnlyWhite(before);
    BlankIsOnlyWhite(after);
    assert s == before + t && t == t[..kept] + after;
    if Trim(s) != "" {
      assert Trim(s)[0] == t[0] == s[cut] && Trim(s)[|Trim(s)| - 1] == t[kept - 1];
      assert !IsBlank(Trim(s)[..1]) && !IsBlank(Trim(s)[|Trim(s)| - 1..]) by {
        assert Trim(s)[..1][0] == s[cut] && Trim(s)[|Trim(s)| - 1..][0] == t[kept - 1];
      }
      BlankIsOnlyWhite(Trim(s)[..1]);
      BlankIsOnlyWhite(Trim(s)[|Trim(s)| - 1..]);
    }
  }

  /** A text that neither begins nor ends with white space. */
  predicate IsTight(s: string) {
    s == "" || (!OnlyWhite(s[..1]) && !OnlyWhite(s[|s| - 1..]))
  }

  lemma {:induction false} StartCut(before: string, rest: string)
    requires IsBlank(before) && (rest == "" || !IsWhite(rest[0]))
    ensures TrimStart(before + rest) == rest
  {
    if before == "" {
      assert before + rest == rest;
    } else {
      assert IsWhite(before[0]) && (before + rest)[1..] == before[1..] + rest;
      assert forall k | 0 <= k < |before[1..]| :: before[1..][k] == before[k + 1];
      StartCut(before[1..], rest);
    }
  }

  lemma {:induction false} EndCut(rest: string, after: string)
    requires IsBlank(after) && (rest == "" || !IsWhite(rest[|rest| - 1]))
    ensures TrimEnd(rest + after) == rest
  {
    if after == "" {
      assert rest + after == rest;
    } else {
      var n := |after| - 1;
      assert IsWhite(after[n]) && (rest + after)[..|rest| + n] == rest + after[..n] && (rest + after)[|rest| + n] == after[n];
      EndCut(rest, after[..n]);
    }
  }

  /** Trimming takes off exactly the white space around a text. */
  lemma TrimOf(before: string, core: string, after: string)
    requires OnlyWhite(before) && OnlyWhite(after) && IsTight(core)
    ensures Trim(before + core + after) == core
  {
    BlankIsOnlyWhite(before);
    BlankIsOnlyWhite(after);
    if core == "" {
      BlankIsOnlyWhite(before + core + after);
      TrimEmptyIffBlank(before + core + after);
    } else {
      BlankIsOnlyWhite(core[..1]);
      BlankIsOnlyWhite(core[|core| - 1..]);
      assert core[..1][0] == core[0] && core[|core| - 1..][0] == core[|core| - 1];
      assert before + core + after == before + (core + after) && (core + after)[0] == core[0];
      StartCut(before, core + after);
      EndCut(core, after);
    }
  }
}
