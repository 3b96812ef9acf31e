/**
 * One stratum's shuffle-and-group step: cut the shuffled IDs into
 * `nGroups` sets of `k`, then either deal the remaining ("overflow") IDs
 * round-robin into those sets or hand them back as leftover.
 *
 * The shuffle itself is not modelled as a random source: the caller passes
 * the shuffled order, a permutation of the stratum.
 */
module Grouping {
  import opened Sets
  import opened Errors

  /** The sets of one stratum and the IDs it could not place. */
  datatype Grouped = Grouped(sets: seq<set<Id>>, leftover: set<Id>)

  /**
   * The condition under which grouping a stratum of `size` IDs succeeds:
   * the stratum can fill every set once, the set size is positive (a range
   * with step zero fails), and overflow is never dealt into zero sets (a
   * modulo by zero fails).
   */
  predicate Groupable(size: nat, nGroups: nat, k: nat, allowOverflow: bool) {
    && nGroups * k <= size
    && k > 0
    && !(allowOverflow && nGroups == 0 && size > 0)
  }

  /** Block `a` of `k` positions ends no later than block `b` starts, for `a < b`. */
  lemma {:induction false} MulStep(a: nat, b: nat, k: nat)
    requires a < b
    ensures a * k + k <= b * k
    decreases b - a
  {
    if a + 1 < b {
      MulStep(a + 1, b, k);
      assert (a + 1) * k == a * k + k;
    } else {
      assert b * k == a * k + k;
    }
  }

  /** Position `p` lies in the `i`-th block of `k` exactly when `p / k == i`. */
  lemma DivBlock(p: nat, k: nat, i: nat)
    requires k > 0
    ensures (i * k <= p < i * k + k) <==> p / k == i
  {
    var q := p / k;
    assert q * k <= p < q * k + k;
    if q < i {
      MulStep(q, i, k);
    } else if q > i {
      MulStep(i, q, k);
    }
  }

  /** Set `i` before overflow: the IDs at shuffled positions `[i*k, i*k + k)`. */
  function Chunk(ids: seq<Id>, nGroups: nat, k: nat, i: nat): (block: set<Id>)
    requires i < nGroups && nGroups * k <= |ids|
  {
    MulStep(i, nGroups, k);
    Elems(ids[i * k .. i * k + k])
  }

  /**
   * The overflow IDs that round-robin placement adds to set `i`: the `j`-th
   * overflow ID goes to set `j % n`.
   */
  function RoundRobinShare(overflow: seq<Id>, n: nat, i: nat): (share: set<Id>)
    requires n > 0
    decreases |overflow|
  {
    if overflow == [] then {}
    else
      var j := |overflow| - 1;
      RoundRobinShare(overflow[..j], n, i) + (if j % n == i then {overflow[j]} else {})
  }

  /** The sets one stratum is grouped into, for the shuffled IDs `ids`. */
  function Groups(ids: seq<Id>, nGroups: nat, k: nat, allowOverflow: bool): (sets: seq<set<Id>>)
    requires Groupable(|ids|, nGroups, k, allowOverflow)
  {
    seq(nGroups, i requires 0 <= i < nGroups =>
      Chunk(ids, nGroups, k, i)
      + (if allowOverflow && nGroups * k < |ids| then RoundRobinShare(ids[nGroups * k..], nGroups, i) else {}))
  }

  /** The IDs of one stratum left without a group, for the shuffled IDs `ids`. */
  function Leftover(ids: seq<Id>, nGroups: nat, k: nat, allowOverflow: bool): (leftover: set<Id>)
    requires nGroups * k <= |ids|
  {
    if nGroups * k < |ids| && !allowOverflow then Elems(ids[nGroups * k..]) else {}
  }

  /**
   * Groups one stratum, as lunchtag's `_shuffle_and_group` does. `shuffle`
   * is the stratum in shuffled order. Fails, in this order, on a stratum smaller than `nGroups * k`, a zero `k`, or
   * overflow to deal into zero sets; otherwise the result is `Groups` and
   * `Leftover` of the shuffled order.
   */
  method ShuffleAndGroup(stratum: seq<Id>, shuffle: seq<Id>, nGroups: nat, k: nat, allowOverflow: bool)
    returns (r: Result<Grouped>)
    requires |shuffle| == |stratum| && multiset(shuffle) == multiset(stratum)
    ensures r.Ok? <==> Groupable(|stratum|, nGroups, k, allowOverflow)
    ensures r.Err? ==> r.error == (if |stratum| < nGroups * k then Underflow else if k == 0 then ZeroStep else ZeroDivision)
    ensures r.Ok? ==> r.value == Grouped(Groups(shuffle, nGroups, k, allowOverflow), Leftover(shuffle, nGroups, k, allowOverflow))
    ensures r.Ok? && Distinct(stratum) ==> Partitions(r.value.sets, r.value.leftover, Elems(stratum))
  {
    var minParticipants := nGroups * k;
    if |stratum| < minParticipants {
      return Err(Underflow);
    }
    var ids := shuffle;
    if k == 0 {
      return Err(ZeroStep);
    }
    var sets: seq<set<Id>> := [];
    var g := 0;
    while g < nGroups
      invariant g <= nGroups
      invariant |sets| == g
      invariant forall i :: 0 <= i < g ==> sets[i] == Chunk(ids, nGroups, k, i)
    {
      MulStep(g, nGroups, k);
      sets := sets + [Elems(ids[g * k .. g * k + k])];
      g := g + 1;
    }
    var leftover: set<Id> := {};
    if minParticipants < |stratum| {
      if allowOverflow {
        var dealt := DealOverflow(ids, nGroups, k, sets);
        if dealt.Err? {
          return Err(dealt.error);
        }
        sets := dealt.value;
      } else {
        leftover := Elems(ids[minParticipants..]);
      }
    }
    assert Groupable(|ids|, nGroups, k, allowOverflow);
    ghost var expected := Groups(ids, nGroups, k, allowOverflow);
    forall i | 0 <= i < nGroups ensures sets[i] == expected[i] {
    }
    assert sets == expected;
    if Distinct(stratum) {
      ShuffledPartition(stratum, shuffle, nGroups, k, allowOverflow);
    }
    return Ok(Grouped(sets, leftover));
  }

  /**
   * Deals the overflow IDs (shuffled positions from `nGroups * k` on) round
   * robin into the sets, the `j`-th into set `j % nGroups`; with no sets to
   * deal into, the modulo fails.
   */
  method DealOverflow(ids: seq<Id>, nGroups: nat, k: nat, sets: seq<set<Id>>) returns (r: Result<seq<set<Id>>>)
    requires nGroups * k < |ids|
    requires |sets| == nGroups && forall i :: 0 <= i < nGroups ==> sets[i] == Chunk(ids, nGroups, k, i)
    ensures r.Ok? <==> nGroups > 0
    ensures r.Err? ==> r.error == ZeroDivision
    ensures r.Ok? ==> |r.value| == nGroups && forall i :: 0 <= i < nGroups ==>
      r.value[i] == Chunk(ids, nGroups, k, i) + RoundRobinShare(ids[nGroups * k..], nGroups, i)
  {
    var overflow := ids[nGroups * k..];
    var dealt := sets;
    var j := 0;
    while j < |overflow|
      invariant j <= |overflow|
      invariant j > 0 ==> nGroups > 0
      invariant |dealt| == nGroups
      invariant forall i :: 0 <= i < nGroups ==>
        dealt[i] == Chunk(ids, nGroups, k, i) + RoundRobinShare(overflow[..j], nGroups, i)
    {
      if |dealt| == 0 {
        return Err(ZeroDivision);
      }
      ghost var before := dealt;
      dealt := dealt[j % |dealt| := dealt[j % |dealt|] + {overflow[j]}];
      forall i | 0 <= i < nGroups
        ensures dealt[i] == Chunk(ids, nGroups, k, i) + RoundRobinShare(overflow[..j + 1], nGroups, i)
      {
        assert overflow[..j + 1][..j] == overflow[..j];
        assert dealt[i] == before[i] + (if j % nGroups == i then {overflow[j]} else {});
      }
      j := j + 1;
    }
    assert overflow[..j] == overflow;
    return Ok(dealt);
  }

  /** Grouping any shuffle of a stratum without repeated IDs partitions the stratum. */
  lemma ShuffledPartition(stratum: seq<Id>, shuffle: seq<Id>, nGroups: nat, k: nat, allowOverflow: bool)
    requires multiset(shuffle) == multiset(stratum) && Distinct(stratum)
    requires Groupable(|shuffle|, nGroups, k, allowOverflow)
    ensures Partitions(Groups(shuffle, nGroups, k, allowOverflow), Leftover(shuffle, nGroups, k, allowOverflow), Elems(stratum))
  {
    PermutationDistinct(stratum, shuffle);
    GroupsPartition(shuffle, nGroups, k, allowOverflow);
  }

  /** Where a shuffled ID ends up: in the set with the given index, or in the leftover. */
  datatype Place = InSet(index: nat) | Left

  /**
   * Where the ID at shuffled position `p` is placed: set `p / k` before the
   * overflow, then set `(p - nGroups*k) % nGroups` if overflow is dealt out,
   * otherwise the leftover.
   */
  function Slot(p: nat, nGroups: nat, k: nat, allowOverflow: bool): (place: Place)
    requires k > 0
  {
    if p < nGroups * k then InSet(p / k)
    else if allowOverflow && nGroups > 0 then InSet((p - nGroups * k) % nGroups)
    else Left
  }

  /** The `j`-th overflow ID is dealt to set `j % n`, and set `i` receives nothing else. */
  lemma {:induction false} RoundRobinShareMembers(overflow: seq<Id>, n: nat, i: nat, x: Id)
    requires n > 0
    ensures x in RoundRobinShare(overflow, n, i) <==> exists j :: 0 <= j < |overflow| && j % n == i && overflow[j] == x
    decreases |overflow|
  {
    if overflow != [] {
      var last := |overflow| - 1;
      var init := overflow[..last];
      RoundRobinShareMembers(init, n, i, x);
      if x in RoundRobinShare(overflow, n, i) && x !in RoundRobinShare(init, n, i) {
        assert last % n == i && overflow[last] == x;
      }
      if j :| 0 <= j < |overflow| && j % n == i && overflow[j] == x {
        if j < last {
          assert init[j] == x;
        }
      }
    }
  }

  /**
   * Placement by position: the ID at shuffled position `p` lies in the set
   * that `Slot` names, or in the leftover when `Slot` says so.
   */
  lemma PositionPlaced(ids: seq<Id>, nGroups: nat, k: nat, allowOverflow: bool, p: nat)
    requires Groupable(|ids|, nGroups, k, allowOverflow)
    requires p < |ids|
    ensures var s := Slot(p, nGroups, k, allowOverflow);
      || (s.Left? && ids[p] in Leftover(ids, nGroups, k, allowOverflow))
      || (s.InSet? && s.index < nGroups && ids[p] in Groups(ids, nGroups, k, allowOverflow)[s.index])
  {
    if p < nGroups * k {
      ChunkPositionPlaced(ids, nGroups, k, allowOverflow, p);
    } else if allowOverflow && nGroups > 0 {
      var overflow := ids[nGroups * k..];
      assert overflow[p - nGroups * k] == ids[p];
      RoundRobinShareMembers(overflow, nGroups, (p - nGroups * k) % nGroups, ids[p]);
    } else {
      assert ids[p] == ids[nGroups * k..][p - nGroups * k];
    }
  }

  lemma ChunkPositionPlaced(ids: seq<Id>, nGroups: nat, k: nat, allowOverflow: bool, p: nat)
    requires Groupable(|ids|, nGroups, k, allowOverflow)
    requires p < nGroups * k
    ensures 0 <= p / k < nGroups && ids[p] in Groups(ids, nGroups, k, allowOverflow)[p / k]
  {
    var i := p / k;
    DivBlock(p, k, i);
    assert i < nGroups by {
      if i > nGroups {
        MulStep(nGroups, i, k);
      }
    }
    MulStep(i, nGroups, k);
    assert ids[p] == ids[i * k .. i * k + k][p - i * k];
    assert ids[p] in Chunk(ids, nGroups, k, i);
  }

  /** Every member of set `i` sits at a shuffled position that `Slot` sends to set `i`. */
  lemma GroupMemberPosition(ids: seq<Id>, nGroups: nat, k: nat, allowOverflow: bool, i: nat, x: Id)
    returns (p: nat)
    requires Groupable(|ids|, nGroups, k, allowOverflow)
    requires i < nGroups && x in Groups(ids, nGroups, k, allowOverflow)[i]
    ensures p < |ids| && ids[p] == x && Slot(p, nGroups, k, allowOverflow) == InSet(i)
  {
    var n, base := nGroups, nGroups * k;
    MulStep(i, n, k);
    if x in Chunk(ids, n, k, i) {
      var chunk := ids[i * k .. i * k + k];
      var q :| 0 <= q < k && chunk[q] == x;
      DivBlock(i * k + q, k, i);
      p := i * k + q;
    } else {
      var overflow := ids[base..];
      RoundRobinShareMembers(overflow, n, i, x);
      var j :| 0 <= j < |overflow| && j % n == i && overflow[j] == x;
      p := base + j;
    }
  }

  /** Every leftover ID sits at a shuffled position that `Slot` sends to the leftover. */
  lemma LeftoverMemberPosition(ids: seq<Id>, nGroups: nat, k: nat, allowOverflow: bool, x: Id)
    returns (p: nat)
    requires Groupable(|ids|, nGroups, k, allowOverflow)
    requires x in Leftover(ids, nGroups, k, allowOverflow)
    ensures p < |ids| && ids[p] == x && Slot(p, nGroups, k, allowOverflow) == Left
  {
    var overflow := ids[nGroups * k..];
    var j :| 0 <= j < |overflow| && overflow[j] == x;
    p := nGroups * k + j;
  }

  lemma GroupMembersPositioned(ids: seq<Id>, nGroups: nat, k: nat, allowOverflow: bool, i: nat)
    requires Groupable(|ids|, nGroups, k, allowOverflow)
    requires i < nGroups
    ensures forall x :: x in Groups(ids, nGroups, k, allowOverflow)[i] ==>
      exists p :: 0 <= p < |ids| && ids[p] == x && Slot(p, nGroups, k, allowOverflow) == InSet(i)
  {
    forall x | x in Groups(ids, nGroups, k, allowOverflow)[i]
      ensures exists p :: 0 <= p < |ids| && ids[p] == x && Slot(p, nGroups, k, allowOverflow) == InSet(i)
    {
      var p := GroupMemberPosition(ids, nGroups, k, allowOverflow, i, x);
    }
  }

  lemma LeftoverMembersPositioned(ids: seq<Id>, nGroups: nat, k: nat, allowOverflow: bool)
    requires Groupable(|ids|, nGroups, k, allowOverflow)
    ensures forall x :: x in Leftover(ids, nGroups, k, allowOverflow) ==>
      exists p :: 0 <= p < |ids| && ids[p] == x && Slot(p, nGroups, k, allowOverflow) == Left
  {
  }

  /**
   * Grouping partitions the stratum: with distinct IDs, every shuffled ID
   * ends up in exactly one set or in the leftover, and no other ID appears.
   */
  lemma GroupsPartition(ids: seq<Id>, nGroups: nat, k: nat, allowOverflow: bool)
    requires Groupable(|ids|, nGroups, k, allowOverflow)
    requires Distinct(ids)
    ensures Partitions(Groups(ids, nGroups, k, allowOverflow), Leftover(ids, nGroups, k, allowOverflow), Elems(ids))
  {
    var groups := Groups(ids, nGroups, k, allowOverflow);
    var leftover := Leftover(ids, nGroups, k, allowOverflow);
    forall i, j | 0 <= i < j < |groups| ensures groups[i] !! groups[j] {
      GroupMembersPositioned(ids, nGroups, k, allowOverflow, i);
      GroupMembersPositioned(ids, nGroups, k, allowOverflow, j);
    }
    LeftoverMembersPositioned(ids, nGroups, k, allowOverflow);
    forall i | 0 <= i < |groups| ensures groups[i] !! leftover {
      GroupMembersPositioned(ids, nGroups, k, allowOverflow, i);
    }
    forall x ensures x in Elems(ids) <==> x in leftover || exists i :: 0 <= i < |groups| && x in groups[i] {
      if x in Elems(ids) {
        var p :| 0 <= p < |ids| && ids[p] == x;
        PositionPlaced(ids, nGroups, k, allowOverflow, p);
      }
      if i :| 0 <= i < |groups| && x in groups[i] {
        GroupMembersPositioned(ids, nGroups, k, allowOverflow, i);
      }
    }
  }

  /**
   * Set sizes: set `i` starts as exactly the `k` distinct IDs at shuffled
   * positions `[i*k, i*k + k)`; overflow only adds to it, so every set has
   * at least `k` members, and exactly `k` when overflow is not dealt out or
   * there is none.
   */
  lemma GroupSizes(ids: seq<Id>, nGroups: nat, k: nat, allowOverflow: bool)
    requires Groupable(|ids|, nGroups, k, allowOverflow)
    requires Distinct(ids)
    ensures |Groups(ids, nGroups, k, allowOverflow)| == nGroups
    ensures forall i :: 0 <= i < nGroups ==>
      && |Chunk(ids, nGroups, k, i)| == k
      && Chunk(ids, nGroups, k, i) <= Groups(ids, nGroups, k, allowOverflow)[i]
      && |Groups(ids, nGroups, k, allowOverflow)[i]| >= k
    ensures !allowOverflow || |ids| == nGroups * k ==>
      forall i :: 0 <= i < nGroups ==> Groups(ids, nGroups, k, allowOverflow)[i] == Chunk(ids, nGroups, k, i)
  {
    forall i | 0 <= i < nGroups
      ensures |Chunk(ids, nGroups, k, i)| == k && |Groups(ids, nGroups, k, allowOverflow)[i]| >= k
    {
      ChunkSize(ids, nGroups, k, i);
      SetAtLeastChunk(ids, nGroups, k, allowOverflow, i);
    }
  }

  /** Set `i` is at least as large as its block. */
  lemma SetAtLeastChunk(ids: seq<Id>, nGroups: nat, k: nat, allowOverflow: bool, i: nat)
    requires Groupable(|ids|, nGroups, k, allowOverflow)
    requires i < nGroups
    ensures |Groups(ids, nGroups, k, allowOverflow)[i]| >= |Chunk(ids, nGroups, k, i)|
  {
    var set_i := Groups(ids, nGroups, k, allowOverflow)[i];
    var extra := set_i - Chunk(ids, nGroups, k, i);
    assert set_i == Chunk(ids, nGroups, k, i) + extra;
  }

  /** Set `i` before overflow holds `k` distinct IDs. */
  lemma ChunkSize(ids: seq<Id>, nGroups: nat, k: nat, i: nat)
    requires i < nGroups && nGroups * k <= |ids|
    requires Distinct(ids)
    ensures |Chunk(ids, nGroups, k, i)| == k
  {
    MulStep(i, nGroups, k);
    var block := ids[i * k .. i * k + k];
    assert Distinct(block) by {
      forall a, b | 0 <= a < b < |block| ensures block[a] != block[b] {
        assert block[a] == ids[i * k + a] && block[b] == ids[i * k + b];
      }
    }
    DistinctCard(block);
  }

  /**
   * With overflow dealt out, nothing is left over and the `j`-th overflow ID
   * (shuffled position `nGroups*k + j`) is in set `j % nGroups`.
   */
  lemma RoundRobinPlacement(ids: seq<Id>, nGroups: nat, k: nat, allowOverflow: bool)
    requires Groupable(|ids|, nGroups, k, allowOverflow)
    requires allowOverflow
    ensures Leftover(ids, nGroups, k, allowOverflow) == {}
    ensures forall j :: 0 <= j < |ids| - nGroups * k ==>
      nGroups > 0 && ids[nGroups * k + j] in Groups(ids, nGroups, k, allowOverflow)[j % nGroups]
  {
    forall j | 0 <= j < |ids| - nGroups * k
      ensures nGroups > 0 && ids[nGroups * k + j] in Groups(ids, nGroups, k, allowOverflow)[j % nGroups]
    {
      PositionPlaced(ids, nGroups, k, allowOverflow, nGroups * k + j);
    }
  }

  /** Five shuffled IDs cut into blocks of two: the first two and the next two. */
  lemma FiveIntoTwoPairs()
    ensures var ids := ["a", "b", "c", "d", "e"];
      Chunk(ids, 2, 2, 0) == {"a", "b"} && Chunk(ids, 2, 2, 1) == {"c", "d"}
  {
    var ids := ["a", "b", "c", "d", "e"];
    assert ids[..2] == ["a", "b"] && ids[2..4] == ["c", "d"];
    assert Elems(["a", "b"]) == {"a", "b"};
    assert Elems(["c", "d"]) == {"c", "d"};
  }

  /** With overflow dealt out, the fifth ID joins the first set and nothing is left over. */
  lemma FiveWithOverflow()
    ensures var ids := ["a", "b", "c", "d", "e"];
      && Groups(ids, 2, 2, true) == [{"a", "b", "e"}, {"c", "d"}]
      && Leftover(ids, 2, 2, true) == {}
  {
    var ids := ["a", "b", "c", "d", "e"];
    FiveIntoTwoPairs();
    assert ids[4..] == ["e"];
    assert RoundRobinShare(ids[4..], 2, 0) == {"e"};
    assert RoundRobinShare(ids[4..], 2, 1) == {};
    var on := Groups(ids, 2, 2, true);
    assert on[0] == {"a", "b", "e"} && on[1] == {"c", "d"};
  }

  /** Without overflow, the fifth ID is left over and the sets are pairs. */
  lemma FiveWithoutOverflow()
    ensures var ids := ["a", "b", "c", "d", "e"];
      && Groups(ids, 2, 2, false) == [{"a", "b"}, {"c", "d"}]
      && Leftover(ids, 2, 2, false) == {"e"}
  {
    var ids := ["a", "b", "c", "d", "e"];
    FiveIntoTwoPairs();
    assert ids[4..] == ["e"];
    var off := Groups(ids, 2, 2, false);
    assert off[0] == {"a", "b"} && off[1] == {"c", "d"};
  }
}
