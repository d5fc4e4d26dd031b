/** Small facts about sequences that the solver is not left to find. */
module Sequences {

  lemma Regroup<T>(a: seq<T>, b: seq<T>, c: seq<T>)
    ensures (a + b) + c == a + (b + c)
  {
  }

  lemma SliceCons<T>(s: seq<T>, from: nat, end: nat)
    requires from < end <= |s|
    ensures s[from..end] == [s[from]] + s[from + 1..end]
  {
  }

  lemma FrontOfAppend<T>(s: seq<T>, x: T)
    ensures (s + [x])[..|s + [x]| - 1] == s && (s + [x])[|s + [x]| - 1] == x
  {
  }

  lemma SplitLast<T>(s: seq<T>)
    requires s != []
    ensures s == s[..|s| - 1] + [s[|s| - 1]]
  {
  }

  lemma EmptyPlus<T>(s: seq<T>)
    ensures [] + s == s && s + [] == s
  {
  }

  lemma ConsConcat<T>(a: seq<T>, b: seq<T>)
    requires a != []
    ensures a == [a[0]] + a[1..] && a + b == [a[0]] + (a[1..] + b)
  {
  }
}
