/** `Array.prototype.sort`, which is stable, for a comparison that says when its first argument has to come first. */
module StableSort {

  /** Behind everything that does not have to come after it. */
  function Inserted<T>(s: seq<T>, x: T, precedes: (T, T) -> bool): seq<T> {
    if s == [] || precedes(x, s[0]) then [x] + s else [s[0]] + Inserted(s[1..], x, precedes)
  }

  function Sorted<T>(s: seq<T>, precedes: (T, T) -> bool): seq<T> {
    if s == [] then [] else Inserted(Sorted(s[..|s| - 1], precedes), s[|s| - 1], precedes)
  }

  ghost predicate InOrder<T>(s: seq<T>, precedes: (T, T) -> bool) {
    forall i, j | 0 <= i < j < |s| :: !precedes(s[j], s[i])
  }

  lemma {:induction false} InsertedKeeps<T>(s: seq<T>, x: T, precedes: (T, T) -> bool)
    ensures multiset(Inserted(s, x, precedes)) == multiset(s) + multiset{x}
  {
    if s == [] || precedes(x, s[0]) {
    } else {
      InsertedKeeps(s[1..], x, precedes);
      assert s == [s[0]] + s[1..];
    }
  }

  lemma {:induction false} SortedKeeps<T>(s: seq<T>, precedes: (T, T) -> bool)
    ensures multiset(Sorted(s, precedes)) == multiset(s)
  {
    if s != [] {
      SortedKeeps(s[..|s| - 1], precedes);
      InsertedKeeps(Sorted(s[..|s| - 1], precedes), s[|s| - 1], precedes);
      assert s == s[..|s| - 1] + [s[|s| - 1]];
    }
  }

  lemma {:induction false} InsertedLast<T>(s: seq<T>, x: T, precedes: (T, T) -> bool)
    requires forall k | 0 <= k < |s| :: !precedes(x, s[k])
    ensures Inserted(s, x, precedes) == s + [x]
  {
    if s != [] {
      assert forall k | 0 <= k < |s[1..]| :: s[1..][k] == s[k + 1];
      InsertedLast(s[1..], x, precedes);
      assert s == [s[0]] + s[1..];
    }
  }

  /** What is in order already stays as it is. */
  lemma {:induction false} SortedAlready<T>(s: seq<T>, precedes: (T, T) -> bool)
    requires InOrder(s, precedes)
    ensures Sorted(s, precedes) == s
  {
    if s != [] {
      SortedAlready(s[..|s| - 1], precedes);
      InsertedLast(s[..|s| - 1], s[|s| - 1], precedes);
    }
  }

  /** The place of the element that sorting puts first. */
  function FirstPlace<T>(s: seq<T>, precedes: (T, T) -> bool): (k: nat)
    requires s != []
    ensures k < |s|
  {
    if |s| == 1 then 0
    else
      var k := FirstPlace(s[..|s| - 1], precedes);
      if precedes(s[|s| - 1], s[k]) then |s| - 1 else k
  }

  lemma {:induction false} FirstPlaceIs<T>(s: seq<T>, precedes: (T, T) -> bool)
    requires s != []
    ensures Sorted(s, precedes) != [] && Sorted(s, precedes)[0] == s[FirstPlace(s, precedes)]
  {
    if |s| == 1 {
      assert s[..0] == [] && Sorted(s[..0], precedes) == [];
    } else {
      FirstPlaceIs(s[..|s| - 1], precedes);
    }
  }

  /** A strict weak order on the elements `among` describes. */
  ghost predicate ConsistentFor<T(!new)>(among: T -> bool, precedes: (T, T) -> bool) {
    && (forall x, y | among(x) && among(y) :: precedes(x, y) ==> !precedes(y, x))
    && (forall x, y, z | among(x) && among(y) && among(z) :: !precedes(x, y) && !precedes(y, z) ==> !precedes(x, z))
  }

  lemma {:induction false} InsertedInOrder<T(!new)>(s: seq<T>, x: T, among: T -> bool, precedes: (T, T) -> bool)
    requires ConsistentFor(among, precedes) && InOrder(s, precedes)
    requires among(x) && forall k | 0 <= k < |s| :: among(s[k])
    ensures InOrder(Inserted(s, x, precedes), precedes)
    ensures forall k | 0 <= k < |Inserted(s, x, precedes)| :: Inserted(s, x, precedes)[k] == x || Inserted(s, x, precedes)[k] in s
    ensures forall k | 0 <= k < |Inserted(s, x, precedes)| :: among(Inserted(s, x, precedes)[k])
  {
    if s != [] && !precedes(x, s[0]) {
      InsertedInOrder(s[1..], x, among, precedes);
      var rest := Inserted(s[1..], x, precedes);
      forall k | 0 <= k < |rest| ensures !precedes(rest[k], s[0]) {
        if rest[k] != x {
          var i :| 0 <= i < |s[1..]| && s[1..][i] == rest[k];
          assert s[i + 1] == rest[k];
        }
      }
    } else {
      forall k | 0 <= k < |s| ensures !precedes(s[k], x) {
        if k > 0 { assert !precedes(s[k], s[0]) && !precedes(s[0], x); }
      }
    }
  }

  lemma {:induction false} SortedInOrder<T(!new)>(s: seq<T>, among: T -> bool, precedes: (T, T) -> bool)
    requires ConsistentFor(among, precedes) && forall k | 0 <= k < |s| :: among(s[k])
    ensures InOrder(Sorted(s, precedes), precedes)
    ensures forall k | 0 <= k < |Sorted(s, precedes)| :: among(Sorted(s, precedes)[k])
  {
    if s != [] {
      SortedInOrder(s[..|s| - 1], among, precedes);
      InsertedInOrder(Sorted(s[..|s| - 1], precedes), s[|s| - 1], among, precedes);
    }
  }

  /** What comes first after sorting is preceded by nothing, and is the earliest such element. */
  lemma {:induction false} FirstIsBest<T(!new)>(s: seq<T>, among: T -> bool, precedes: (T, T) -> bool)
    requires s != [] && ConsistentFor(among, precedes) && forall k | 0 <= k < |s| :: among(s[k])
    ensures var best := FirstPlace(s, precedes);
            && (forall k | 0 <= k < |s| :: !precedes(s[k], s[best]))
            && (forall k | 0 <= k < best :: precedes(s[best], s[k]))
  {
    var n := |s| - 1;
    if n > 0 {
      FirstIsBest(s[..n], among, precedes);
      var best := FirstPlace(s[..n], precedes);
      if precedes(s[n], s[best]) {
        forall k | 0 <= k < n ensures precedes(s[n], s[k]) && !precedes(s[k], s[n]) {
          assert !precedes(s[..n][k], s[..n][best]);
        }
      } else {
        assert forall k | 0 <= k < n :: s[..n][k] == s[k];
      }
    }
  }
}
