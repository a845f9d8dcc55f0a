// The list-difference helpers of the AwsAccount controller: a linear
// membership test and the computation of the groups to join and to leave.

module Difference {

  /** The elements of `s` that do not occur in `excluded`, kept in the order
      and with the multiplicity they have in `s`. */
  function Missing<T(==)>(s: seq<T>, excluded: seq<T>): (r: seq<T>)
    ensures |r| <= |s|
  {
    if s == [] then []
    else Missing(s[..|s| - 1], excluded) + (if s[|s| - 1] in excluded then [] else [s[|s| - 1]])
  }

  /** The set of values that occur in `s`. */
  function Elements<T>(s: seq<T>): set<T>
  {
    set x | x in s
  }

  /** No value occurs twice in `s`. */
  predicate Distinct<T(==)>(s: seq<T>)
  {
    forall i, j :: 0 <= i < j < |s| ==> s[i] != s[j]
  }

  /** Linear membership test: scans `slice` from the front and stops at the first match. */
  method Contains<T(==)>(slice: seq<T>, val: T) returns (found: bool)
    ensures found <==> val in slice
  {
    for i := 0 to |slice|
      invariant val !in slice[..i]
    {
      if slice[i] == val {
        return true;
      }
    }
    return false;
  }

  /** `wanted` collects the elements of `desired` missing from `current`, and
      `unwanted` those of `current` missing from `desired`, each by appending
      in input order. */
  method GetDifference<T(==)>(desired: seq<T>, current: seq<T>) returns (wanted: seq<T>, unwanted: seq<T>)
    ensures wanted == Missing(desired, current)
    ensures unwanted == Missing(current, desired)
  {
    wanted := [];
    for i := 0 to |desired|
      invariant wanted == Missing(desired[..i], current)
    {
      var found := Contains(current, desired[i]);
      if !found {
        wanted := wanted + [desired[i]];
      }
      assert desired[..i + 1][..i] == desired[..i];
    }
    assert desired[..|desired|] == desired;
    unwanted := [];
    for i := 0 to |current|
      invariant unwanted == Missing(current[..i], desired)
    {
      var found := Contains(desired, current[i]);
      if !found {
        unwanted := unwanted + [current[i]];
      }
      assert current[..i + 1][..i] == current[..i];
    }
    assert current[..|current|] == current;
  }

  /** A value is in the difference exactly when it is in `s` and not in `excluded`. */
  lemma {:induction false} MissingMembership<T>(s: seq<T>, excluded: seq<T>, x: T)
    ensures x in Missing(s, excluded) <==> x in s && x !in excluded
  {
    if s != [] {
      var init := s[..|s| - 1];
      MissingMembership(init, excluded, x);
      assert s == init + [s[|s| - 1]];
    }
  }

  /** Multiplicity is kept: a value not excluded occurs in the difference as
      often as in `s`, an excluded value not at all. */
  lemma {:induction false} MissingMultiplicity<T>(s: seq<T>, excluded: seq<T>, x: T)
    ensures multiset(Missing(s, excluded))[x] == if x in excluded then 0 else multiset(s)[x]
  {
    if s != [] {
      var init, last := s[..|s| - 1], s[|s| - 1];
      MissingMultiplicity(init, excluded, x);
      assert s == init + [last];
      assert multiset(s) == multiset(init) + multiset{last};
      var tail := if last in excluded then [] else [last];
      assert multiset(Missing(s, excluded)) == multiset(Missing(init, excluded)) + multiset(tail);
    }
  }

  /** Order is kept: the difference of a concatenation is the concatenation of
      the differences. */
  lemma {:induction false} MissingAppend<T>(a: seq<T>, b: seq<T>, excluded: seq<T>)
    ensures Missing(a + b, excluded) == Missing(a, excluded) + Missing(b, excluded)
  {
    if b == [] {
      assert a + b == a;
    } else {
      var init := b[..|b| - 1];
      assert (a + b)[..|a + b| - 1] == a + init;
      assert (a + b)[|a + b| - 1] == b[|b| - 1];
      MissingAppend(a, init, excluded);
    }
  }

  /** Taking away `a + b` is taking away `a` and then `b`. */
  lemma {:induction false} MissingTwice<T>(s: seq<T>, a: seq<T>, b: seq<T>)
    ensures Missing(s, a + b) == Missing(Missing(s, a), b)
  {
    if s != [] {
      var init, last := s[..|s| - 1], s[|s| - 1];
      MissingTwice(init, a, b);
      var tail := if last in a then [] else [last];
      MissingAppend(Missing(init, a), tail, b);
      if last !in a {
        assert [last][..0] == [];
      }
    }
  }

  /** The difference is empty exactly when every element of `s` is excluded. */
  lemma MissingEmpty<T>(s: seq<T>, excluded: seq<T>)
    ensures Missing(s, excluded) == [] <==> forall x :: x in s ==> x in excluded
  {
    var r := Missing(s, excluded);
    if r != [] {
      MissingMembership(s, excluded, r[0]);
    }
    forall x | x in s && x !in excluded
      ensures r != []
    {
      MissingMembership(s, excluded, x);
    }
  }

  /** Nothing is taken away when no element of `s` is excluded. */
  lemma {:induction false} MissingNone<T>(s: seq<T>, excluded: seq<T>)
    requires forall x :: x in s ==> x !in excluded
    ensures Missing(s, excluded) == s
  {
    if s != [] {
      var init := s[..|s| - 1];
      assert forall x :: x in init ==> x in s;
      MissingNone(init, excluded);
      assert s == init + [s[|s| - 1]];
    }
  }

  /** As sets, the difference is the set difference. */
  lemma MissingElements<T>(s: seq<T>, excluded: seq<T>)
    ensures Elements(Missing(s, excluded)) == Elements(s) - Elements(excluded)
  {
    var lhs, rhs := Elements(Missing(s, excluded)), Elements(s) - Elements(excluded);
    forall x
      ensures x in lhs <==> x in rhs
    {
      MissingMembership(s, excluded, x);
    }
    assert lhs == rhs;
  }

  /** `desired` is recovered from `current` by adding `wanted` and taking away
      `unwanted`, as sets. */
  lemma DifferenceSetIdentity<T>(desired: seq<T>, current: seq<T>)
    ensures var wanted, unwanted := Missing(desired, current), Missing(current, desired);
      Elements(desired) == (Elements(current) + Elements(wanted)) - Elements(unwanted)
  {
    var lhs := Elements(desired);
    var rhs := (Elements(current) + Elements(Missing(desired, current))) - Elements(Missing(current, desired));
    forall x
      ensures x in lhs <==> x in rhs
    {
      MissingMembership(desired, current, x);
      MissingMembership(current, desired, x);
    }
    assert lhs == rhs;
  }

  /** Without duplicates in `s`, there are none in its difference either. */
  lemma {:induction false} MissingDistinct<T>(s: seq<T>, excluded: seq<T>)
    requires Distinct(s)
    ensures Distinct(Missing(s, excluded))
  {
    if s != [] {
      var init, last := s[..|s| - 1], s[|s| - 1];
      assert Distinct(init);
      MissingDistinct(init, excluded);
      if last !in excluded {
        MissingMembership(init, excluded, last);
        assert Missing(s, excluded) == Missing(init, excluded) + [last];
      }
    }
  }

  /** Without duplicates, taking away the first `k` elements of a sequence from
      itself leaves exactly the rest. */
  lemma MissingOwnPrefix<T>(s: seq<T>, k: nat)
    requires Distinct(s) && k <= |s|
    ensures Missing(s, s[..k]) == s[k..]
  {
    assert s == s[..k] + s[k..];
    MissingAppend(s[..k], s[k..], s[..k]);
    MissingEmpty(s[..k], s[..k]);
    forall x | x in s[k..]
      ensures x !in s[..k]
    {
    }
    MissingNone(s[k..], s[..k]);
  }
}
