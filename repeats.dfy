/**
 * Repeat detection: every proposed group is intersected with every previous
 * group, and each intersection of two or more participants is reported, in
 * proposal-major, then history order.
 */
module Repeats {
  import opened Sets

  /** The reported intersections of one proposed group with `history`, in history order. */
  function RepeatsWith(group: set<Id>, history: seq<set<Id>>): (reported: seq<set<Id>>)
    decreases |history|
  {
    if history == [] then []
    else
      var last := |history| - 1;
      var inter := group * history[last];
      RepeatsWith(group, history[..last]) + (if |inter| >= 2 then [inter] else [])
  }

  /** The reported intersections of every proposed group, proposal-major. */
  function Repeats(proposal: seq<set<Id>>, history: seq<set<Id>>): (reported: seq<set<Id>>)
    decreases |proposal|
  {
    if proposal == [] then []
    else
      var last := |proposal| - 1;
      Repeats(proposal[..last], history) + RepeatsWith(proposal[last], history)
  }

  /** No proposed group shares two or more participants with any previous group. */
  ghost predicate NoRepeats(proposal: seq<set<Id>>, history: seq<set<Id>>) {
    forall i, j :: 0 <= i < |proposal| && 0 <= j < |history| ==> |proposal[i] * history[j]| <= 1
  }

  /** Computes the repeat list by lunchtag's `_get_repeats` nested loop: proposed groups outside, previous groups inside. */
  method GetRepeats(proposal: seq<set<Id>>, history: seq<set<Id>>) returns (out: seq<set<Id>>)
    ensures out == Repeats(proposal, history)
  {
    out := [];
    for i := 0 to |proposal|
      invariant out == Repeats(proposal[..i], history)
    {
      var prop := proposal[i];
      for j := 0 to |history|
        invariant out == Repeats(proposal[..i], history) + RepeatsWith(prop, history[..j])
      {
        assert history[..j + 1][..j] == history[..j];
        var inter := prop * history[j];
        if |inter| >= 2 {
          out := out + [inter];
        }
      }
      assert history[..|history|] == history;
      assert proposal[..i + 1][..i] == proposal[..i];
    }
    assert proposal[..|proposal|] == proposal;
  }

  /** Every intersection reported for one group is with some previous group and has two or more members; every such intersection is reported. */
  lemma {:induction false} RepeatsWithMembers(group: set<Id>, history: seq<set<Id>>)
    ensures forall r :: r in RepeatsWith(group, history) ==>
      |r| >= 2 && exists j :: 0 <= j < |history| && r == group * history[j]
    ensures forall j :: 0 <= j < |history| && |group * history[j]| >= 2 ==>
      group * history[j] in RepeatsWith(group, history)
    decreases |history|
  {
    if history != [] {
      var last := |history| - 1;
      var init := history[..last];
      RepeatsWithMembers(group, init);
      forall j | 0 <= j < last ensures init[j] == history[j] {}
    }
  }

  /**
   * Soundness of repeat detection: each reported item is the intersection
   * of some proposed group with some previous group and has at least two
   * members.
   */
  lemma {:induction false} RepeatsSound(proposal: seq<set<Id>>, history: seq<set<Id>>)
    ensures forall r :: r in Repeats(proposal, history) ==>
      |r| >= 2 && exists i, j :: 0 <= i < |proposal| && 0 <= j < |history| && r == proposal[i] * history[j]
    decreases |proposal|
  {
    if proposal != [] {
      var last := |proposal| - 1;
      var init := proposal[..last];
      RepeatsSound(init, history);
      RepeatsWithMembers(proposal[last], history);
      forall r | r in Repeats(proposal, history)
        ensures |r| >= 2 && exists i, j :: 0 <= i < |proposal| && 0 <= j < |history| && r == proposal[i] * history[j]
      {
        if r in Repeats(init, history) {
          var i, j :| 0 <= i < |init| && 0 <= j < |history| && r == init[i] * history[j];
          assert r == proposal[i] * history[j];
        } else {
          var j :| 0 <= j < |history| && r == proposal[last] * history[j];
        }
      }
    }
  }

  /** Completeness of repeat detection: every intersection of two or more members is reported. */
  lemma {:induction false} RepeatsComplete(proposal: seq<set<Id>>, history: seq<set<Id>>)
    ensures forall i, j :: 0 <= i < |proposal| && 0 <= j < |history| && |proposal[i] * history[j]| >= 2 ==>
      proposal[i] * history[j] in Repeats(proposal, history)
    decreases |proposal|
  {
    if proposal != [] {
      var last := |proposal| - 1;
      var init := proposal[..last];
      RepeatsComplete(init, history);
      RepeatsWithMembers(proposal[last], history);
      forall i, j | 0 <= i < |proposal| && 0 <= j < |history| && |proposal[i] * history[j]| >= 2
        ensures proposal[i] * history[j] in Repeats(proposal, history)
      {
        if i < last {
          assert init[i] == proposal[i];
        }
      }
    }
  }

  /** The repeat list is empty exactly when no proposed group shares two or more participants with a previous group. */
  lemma RepeatsEmptyIff(proposal: seq<set<Id>>, history: seq<set<Id>>)
    ensures Repeats(proposal, history) == [] <==> NoRepeats(proposal, history)
  {
    RepeatsSound(proposal, history);
    RepeatsComplete(proposal, history);
    if !NoRepeats(proposal, history) {
      var i, j :| 0 <= i < |proposal| && 0 <= j < |history| && |proposal[i] * history[j]| > 1;
      assert proposal[i] * history[j] in Repeats(proposal, history);
    }
    if Repeats(proposal, history) != [] {
      assert Repeats(proposal, history)[0] in Repeats(proposal, history);
    }
  }

  /** Proposal-major order: the items for earlier proposed groups come first. */
  lemma {:induction false} RepeatsAppend(first: seq<set<Id>>, second: seq<set<Id>>, history: seq<set<Id>>)
    ensures Repeats(first + second, history) == Repeats(first, history) + Repeats(second, history)
    decreases |second|
  {
    if second != [] {
      var last := |second| - 1;
      assert (first + second)[..|first| + last] == first + second[..last];
      RepeatsAppend(first, second[..last], history);
    } else {
      assert first + second == first;
    }
  }

  /** History order within one proposed group: items for earlier previous groups come first. */
  lemma {:induction false} RepeatsWithAppend(group: set<Id>, first: seq<set<Id>>, second: seq<set<Id>>)
    ensures RepeatsWith(group, first + second) == RepeatsWith(group, first) + RepeatsWith(group, second)
    decreases |second|
  {
    if second != [] {
      var last := |second| - 1;
      assert (first + second)[..|first| + last] == first + second[..last];
      RepeatsWithAppend(group, first, second[..last]);
    } else {
      assert first + second == first;
    }
  }
}
