/**
 * Participant IDs and the collection facts the assignment engine relies on:
 * distinct sequences, the set of a sequence's elements, unions of a sequence
 * of sets, and what it means for groups plus a leftover set to partition a
 * universe of IDs.
 */
module Sets {

  /** A participant's unique identifier (the roster's `ID` column). */
  type Id = string

  /** No element occurs twice in `s`. */
  ghost predicate Distinct<T>(s: seq<T>) {
    forall i, j :: 0 <= i < j < |s| ==> s[i] != s[j]
  }

  /** The set of elements of `s`. */
  function Elems<T>(s: seq<T>): set<T> {
    set x | x in s
  }

  /** Union of every set in `sets`. */
  function UnionAll(sets: seq<set<Id>>): (u: set<Id>)
    ensures forall x :: x in u <==> exists i :: 0 <= i < |sets| && x in sets[i]
  {
    if sets == [] then {}
    else
      var last := |sets| - 1;
      var u := UnionAll(sets[..last]) + sets[last];
      assert forall x :: x in sets[last] ==> exists i :: 0 <= i < |sets| && x in sets[i] && i == last;
      assert forall i :: 0 <= i < last ==> sets[..last][i] == sets[i];
      u
  }

  /**
   * `groups` and `leftover` partition `universe`: every ID of the universe is
   * in exactly one group or in the leftover set, never in two places, and no
   * other ID appears.
   */
  ghost predicate Partitions(groups: seq<set<Id>>, leftover: set<Id>, universe: set<Id>) {
    && (forall i, j :: 0 <= i < j < |groups| ==> groups[i] !! groups[j])
    && (forall i :: 0 <= i < |groups| ==> groups[i] !! leftover)
    && (forall x :: x in universe <==> x in leftover || exists i :: 0 <= i < |groups| && x in groups[i])
  }

  /** A sequence without repetitions has as many distinct elements as positions. */
  lemma {:induction false} DistinctCard<T>(s: seq<T>)
    requires Distinct(s)
    ensures |Elems(s)| == |s|
  {
    if s != [] {
      var last := |s| - 1;
      var init := s[..last];
      assert s == init + [s[last]];
      assert Distinct(init);
      DistinctCard(init);
      assert Elems(s) == Elems(init) + {s[last]};
      assert s[last] !in Elems(init);
    }
  }

  /** In a sequence without repetitions every element occurs at most once. */
  lemma {:induction false} DistinctCounts<T>(s: seq<T>)
    requires Distinct(s)
    ensures forall x :: multiset(s)[x] <= 1
  {
    if s != [] {
      var last := |s| - 1;
      var init := s[..last];
      assert s == init + [s[last]];
      assert Distinct(init);
      DistinctCounts(init);
      assert s[last] !in multiset(init);
    }
  }

  /**
   * A permutation of a sequence without repetitions has none either, and
   * the same elements: what a shuffle of distinct IDs yields.
   */
  lemma PermutationDistinct<T>(s: seq<T>, t: seq<T>)
    requires Distinct(s)
    requires multiset(t) == multiset(s)
    ensures Distinct(t) && Elems(t) == Elems(s) && |t| == |s|
  {
    DistinctCounts(s);
    forall i, j | 0 <= i < j < |t| ensures t[i] != t[j] {
      assert t == t[..j] + t[j..];
      assert t[i] in t[..j] && t[j] in t[j..];
      assert multiset(t)[t[j]] == multiset(t[..j])[t[j]] + multiset(t[j..])[t[j]];
    }
    assert |multiset(t)| == |multiset(s)|;
    forall x ensures x in t <==> x in s {
      assert x in t <==> x in multiset(t);
      assert x in s <==> x in multiset(s);
    }
  }
}

/** The error paths of the assignment engine: one error per exception lunchtag's `assign_rejection_sampling` can raise. */
module Errors {

  datatype Error =
    | GroupSizeExceedsRoster   // the group size is larger than the roster
    | IndivisibleGroupSize     // the group size is not a multiple of the number of strata
    | OverflowKeysMismatch     // a per-stratum overflow map whose keys are not the strata names
    | ZeroDivision             // an integer division or modulo by zero
    | Underflow                // a stratum too small to fill every group once
    | ZeroStep                 // a range with a step of zero (a subgroup size of zero)

  datatype Result<T> = Ok(value: T) | Err(error: Error)

  datatype Option<T> = None | Some(value: T)
}
