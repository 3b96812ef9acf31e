/**
 * The rejection-sampling assignment engine: validate the configuration,
 * split the roster into strata, then repeatedly shuffle and group every
 * stratum, merge the strata's sets by index into one proposal, and accept
 * the first proposal that repeats no previous group in two or more
 * participants, or give up after `maxAttempts` tries.
 *
 * Randomness is an input: `shuffles[a][s]` is the shuffled order of stratum
 * `s` in attempt `a`.
 */
module Assignment {
  import opened Sets
  import opened Errors
  import opened Grouping
  import opened Repeats

  /** The participants sharing one value of the stratification attribute. */
  datatype Stratum = Stratum(name: string, ids: seq<Id>)

  /** Whether overflow is dealt out: one flag for every stratum, or a flag per stratum name. */
  datatype OverflowPolicy = Uniform(allow: bool) | PerStratum(flags: map<string, bool>)

  /** What setup derives before sampling: the strata, each stratum's overflow flag, the group count and the per-stratum share of a group. */
  datatype Config = Config(strata: seq<Stratum>, allowOverflow: seq<bool>, nGroups: nat, subgroupSize: nat)

  /**
   * The result of a run: the last proposal and its leftover, how many
   * attempts were made, whether the proposal was accepted, and the repeats
   * found in it (empty when accepted).
   */
  datatype Outcome = Outcome(proposal: seq<set<Id>>, leftover: set<Id>, attempts: nat, accepted: bool, repeats: seq<set<Id>>)

  /** Without stratification the whole roster is one stratum named "all". */
  function StrataOf(roster: seq<Id>, stratification: Option<seq<Stratum>>): seq<Stratum> {
    match stratification
    case None => [Stratum("all", roster)]
    case Some(strata) => strata
  }

  function Names(strata: seq<Stratum>): set<string> {
    set s | s in strata :: s.name
  }

  /**
   * `strata` splits `roster` as grouping by an attribute does: distinct
   * names, no ID twice within a stratum, no ID in two strata, and exactly
   * the roster's IDs.
   */
  ghost predicate IsStratification(roster: seq<Id>, strata: seq<Stratum>) {
    && (forall s :: 0 <= s < |strata| ==> Distinct(strata[s].ids))
    && (forall s, t :: 0 <= s < t < |strata| ==>
          strata[s].name != strata[t].name && Elems(strata[s].ids) !! Elems(strata[t].ids))
    && (forall x :: x in roster <==> exists s :: 0 <= s < |strata| && x in strata[s].ids)
  }

  /** The size of the smallest stratum. */
  function MinSize(strata: seq<Stratum>): (m: nat)
    requires |strata| > 0
    ensures forall s :: 0 <= s < |strata| ==> m <= |strata[s].ids|
    ensures exists s :: 0 <= s < |strata| && m == |strata[s].ids|
    decreases |strata|
  {
    if |strata| == 1 then |strata[0].ids|
    else
      var rest := MinSize(strata[1..]);
      assert forall s :: 1 <= s < |strata| ==> strata[1..][s - 1] == strata[s];
      if |strata[0].ids| <= rest then |strata[0].ids| else rest
  }

  /** Each stratum's overflow flag: the single flag, or the stratum's entry in the map. */
  function OverflowFlags(policy: OverflowPolicy, strata: seq<Stratum>): (flags: seq<bool>)
    requires policy.PerStratum? ==> policy.flags.Keys == Names(strata)
    ensures |flags| == |strata|
  {
    seq(|strata|, s requires 0 <= s < |strata| =>
      match policy
      case Uniform(allow) => allow
      case PerStratum(m) => assert strata[s] in strata; m[strata[s].name])
  }

  /**
   * A single flag applies to every stratum; a map gives each stratum the
   * entry under its own name.
   */
  lemma OverflowFlagsPerStratum(policy: OverflowPolicy, strata: seq<Stratum>)
    requires policy.PerStratum? ==> policy.flags.Keys == Names(strata)
    ensures policy.Uniform? ==> forall s :: 0 <= s < |strata| ==> OverflowFlags(policy, strata)[s] == policy.allow
    ensures policy.PerStratum? ==> forall s :: 0 <= s < |strata| ==>
      strata[s].name in policy.flags && OverflowFlags(policy, strata)[s] == policy.flags[strata[s].name]
  {
  }

  /** A configuration every stratum can be grouped under, at least as far as sizes go. */
  ghost predicate ValidConfig(cfg: Config) {
    && |cfg.allowOverflow| == |cfg.strata|
    && cfg.subgroupSize >= 1
    && forall s :: 0 <= s < |cfg.strata| ==> cfg.nGroups * cfg.subgroupSize <= |cfg.strata[s].ids|
  }

  /**
   * Zero groups and a nonempty stratum whose overflow is dealt out: the
   * round-robin placement then takes a modulo by zero.
   */
  ghost predicate OverflowWithoutGroups(cfg: Config)
    requires |cfg.allowOverflow| == |cfg.strata|
  {
    cfg.nGroups == 0 && exists s :: 0 <= s < |cfg.strata| && cfg.allowOverflow[s] && |cfg.strata[s].ids| > 0
  }

  lemma MulLeft(n: nat, a: nat, b: nat)
    requires a <= b
    ensures n * a <= n * b
  {
  }

  /**
   * The group count `minSize / groupSize` times the per-stratum share
   * `groupSize / m` never exceeds the smallest stratum, and the share is
   * at least one.
   */
  lemma CapacityFits(minSize: nat, groupSize: nat, m: nat)
    requires groupSize > 0 && m > 0 && groupSize % m == 0
    ensures groupSize / m >= 1
    ensures (minSize / groupSize) * (groupSize / m) <= minSize
  {
    var k := groupSize / m;
    var n := minSize / groupSize;
    assert groupSize == m * k;
    MulLeft(k, 1, m);
    assert k <= groupSize;
    MulLeft(n, k, groupSize);
    assert n * groupSize <= minSize;
  }

  lemma StrataFit(cfg: Config, groupSize: nat)
    requires |cfg.strata| > 0 && groupSize > 0 && groupSize % |cfg.strata| == 0
    requires |cfg.allowOverflow| == |cfg.strata|
    requires cfg.nGroups == MinSize(cfg.strata) / groupSize && cfg.subgroupSize == groupSize / |cfg.strata|
    ensures ValidConfig(cfg)
  {
    CapacityFits(MinSize(cfg.strata), groupSize, |cfg.strata|);
  }

  /** Without stratification the single stratum is the roster, which holds at least one group. */
  lemma UnstratifiedFit(roster: seq<Id>, stratification: Option<seq<Stratum>>, groupSize: nat)
    requires 0 < groupSize <= |roster|
    ensures stratification.None? ==>
      && MinSize(StrataOf(roster, stratification)) / groupSize >= 1
      && groupSize / |StrataOf(roster, stratification)| == groupSize
  {
  }

  /**
   * Setup before sampling, as lunchtag's `assign_rejection_sampling`
   * does it. Rejects, in this order, a group size
   * larger than the roster, zero strata (a modulo by zero), a group size
   * that is not a multiple of the number of strata, an overflow map whose
   * keys are not the strata names, and a zero group size (a division by
   * zero). Otherwise `nGroups` is the smallest stratum size divided by the
   * group size and `subgroupSize` the group size divided by the number of
   * strata; every stratum then holds at least `nGroups * subgroupSize`
   * IDs, and without stratification there is at least one group.
   */
  function Setup(roster: seq<Id>, stratification: Option<seq<Stratum>>, groupSize: nat, overflow: OverflowPolicy)
    : (r: Result<Config>)
    ensures var strata := StrataOf(roster, stratification);
      r.Ok? <==>
        && groupSize <= |roster|
        && |strata| > 0
        && groupSize % |strata| == 0
        && (overflow.PerStratum? ==> overflow.flags.Keys == Names(strata))
        && groupSize > 0
    ensures r.Ok? ==>
      var strata := StrataOf(roster, stratification);
      && ValidConfig(r.value)
      && r.value.strata == strata
      && r.value.allowOverflow == OverflowFlags(overflow, strata)
      && r.value.nGroups == MinSize(strata) / groupSize
      && r.value.subgroupSize == groupSize / |strata|
  {
    if groupSize > |roster| then Err(GroupSizeExceedsRoster)
    else
      var strata := StrataOf(roster, stratification);
      if |strata| == 0 then Err(ZeroDivision)
      else if groupSize % |strata| != 0 then Err(IndivisibleGroupSize)
      else if overflow.PerStratum? && overflow.flags.Keys != Names(strata) then Err(OverflowKeysMismatch)
      else if groupSize == 0 then Err(ZeroDivision)
      else
        var cfg := Config(strata, OverflowFlags(overflow, strata), MinSize(strata) / groupSize, groupSize / |strata|);
        StrataFit(cfg, groupSize);
        Ok(cfg)
  }

  /**
   * Setup's checks run in the order `assign_rejection_sampling` makes
   * them, and each failed check gives
   * its own error: the group size against the roster, then the number of
   * strata, then divisibility, then the overflow map's keys, then the
   * group size as a divisor.
   */
  lemma SetupErrors(roster: seq<Id>, stratification: Option<seq<Stratum>>, groupSize: nat, overflow: OverflowPolicy)
    ensures var strata := StrataOf(roster, stratification);
      var r := Setup(roster, stratification, groupSize, overflow);
      && (groupSize > |roster| ==> r == Err(GroupSizeExceedsRoster))
      && (groupSize <= |roster| && |strata| == 0 ==> r == Err(ZeroDivision))
      && (groupSize <= |roster| && |strata| > 0 && groupSize % |strata| != 0 ==> r == Err(IndivisibleGroupSize))
      && ((groupSize <= |roster| && |strata| > 0 && groupSize % |strata| == 0
           && overflow.PerStratum? && overflow.flags.Keys != Names(strata)) ==> r == Err(OverflowKeysMismatch))
      && ((groupSize <= |roster| && |strata| > 0 && groupSize % |strata| == 0
           && (overflow.PerStratum? ==> overflow.flags.Keys == Names(strata)) && groupSize == 0) ==> r == Err(ZeroDivision))
  {
  }

  /** Without stratification the roster is one stratum, and there is at least one group of the whole group size. */
  lemma SetupUnstratified(roster: seq<Id>, groupSize: nat, overflow: OverflowPolicy)
    requires Setup(roster, None, groupSize, overflow).Ok?
    ensures Setup(roster, None, groupSize, overflow).value.nGroups >= 1
    ensures Setup(roster, None, groupSize, overflow).value.subgroupSize == groupSize
  {
  }

  /** The configuration lets every stratum be grouped. */
  ghost predicate CanGroup(cfg: Config) {
    ValidConfig(cfg) && !OverflowWithoutGroups(cfg)
  }

  /** `shuffled` holds one permutation of each stratum, in strata order. */
  ghost predicate IsShuffleOf(shuffled: seq<seq<Id>>, strata: seq<Stratum>) {
    && |shuffled| == |strata|
    && forall s :: 0 <= s < |strata| ==>
         |shuffled[s]| == |strata[s].ids| && multiset(shuffled[s]) == multiset(strata[s].ids)
  }

  /** Every stratum's sets for one attempt. */
  function StratumSets(cfg: Config, shuffled: seq<seq<Id>>): (sets: seq<seq<set<Id>>>)
    requires CanGroup(cfg) && IsShuffleOf(shuffled, cfg.strata)
    ensures |sets| == |cfg.strata|
    ensures forall s :: 0 <= s < |sets| ==> |sets[s]| == cfg.nGroups
  {
    seq(|cfg.strata|, s requires 0 <= s < |cfg.strata| =>
      Groups(shuffled[s], cfg.nGroups, cfg.subgroupSize, cfg.allowOverflow[s]))
  }

  /** Every stratum's leftover for one attempt. */
  function StratumLeftovers(cfg: Config, shuffled: seq<seq<Id>>): (leftovers: seq<set<Id>>)
    requires CanGroup(cfg) && IsShuffleOf(shuffled, cfg.strata)
    ensures |leftovers| == |cfg.strata|
  {
    seq(|cfg.strata|, s requires 0 <= s < |cfg.strata| =>
      Leftover(shuffled[s], cfg.nGroups, cfg.subgroupSize, cfg.allowOverflow[s]))
  }

  /** The union of every stratum's `i`-th set. */
  function Column(perStratum: seq<seq<set<Id>>>, i: nat): (column: set<Id>)
    requires forall s :: 0 <= s < |perStratum| ==> i < |perStratum[s]|
    ensures forall x :: x in column <==> exists s :: 0 <= s < |perStratum| && x in perStratum[s][i]
  {
    var sets := seq(|perStratum|, s requires 0 <= s < |perStratum| => perStratum[s][i]);
    assert forall s :: 0 <= s < |perStratum| ==> sets[s] == perStratum[s][i];
    UnionAll(sets)
  }

  /**
   * Merge by index: group `i` is the union of every stratum's `i`-th set,
   * so an ID is in group `i` exactly when some stratum placed it in its
   * `i`-th set.
   */
  function MergeByIndex(perStratum: seq<seq<set<Id>>>, nGroups: nat): (merged: seq<set<Id>>)
    requires forall s :: 0 <= s < |perStratum| ==> |perStratum[s]| == nGroups
    ensures |merged| == nGroups
    ensures forall i, x :: 0 <= i < nGroups ==>
      (x in merged[i] <==> exists s :: 0 <= s < |perStratum| && x in perStratum[s][i])
  {
    seq(nGroups, i requires 0 <= i < nGroups => Column(perStratum, i))
  }

  /** The proposal of one attempt. */
  function Proposal(cfg: Config, shuffled: seq<seq<Id>>): (proposal: seq<set<Id>>)
    requires CanGroup(cfg) && IsShuffleOf(shuffled, cfg.strata)
  {
    MergeByIndex(StratumSets(cfg, shuffled), cfg.nGroups)
  }

  /** The flattened leftover of one attempt. */
  function ProposalLeftover(cfg: Config, shuffled: seq<seq<Id>>): (leftover: set<Id>)
    requires CanGroup(cfg) && IsShuffleOf(shuffled, cfg.strata)
  {
    UnionAll(StratumLeftovers(cfg, shuffled))
  }

  /** The strata used when the roster is not stratified, or the given ones, split the roster. */
  lemma StrataOfIsStratification(roster: seq<Id>, stratification: Option<seq<Stratum>>)
    requires Distinct(roster)
    requires stratification.Some? ==> IsStratification(roster, stratification.value)
    ensures IsStratification(roster, StrataOf(roster, stratification))
  {
    if stratification.None? {
      var strata := StrataOf(roster, stratification);
      forall x ensures x in roster <==> exists s :: 0 <= s < |strata| && x in strata[s].ids {
        assert strata[0].ids == roster;
      }
    }
  }

  /** Stratum `s`'s sets and leftover partition that stratum's IDs. */
  lemma StratumPartition(cfg: Config, shuffled: seq<seq<Id>>, s: nat)
    requires ValidConfig(cfg) && (forall t :: 0 <= t < |cfg.strata| ==> Distinct(cfg.strata[t].ids))
    requires CanGroup(cfg) && IsShuffleOf(shuffled, cfg.strata)
    requires s < |cfg.strata|
    ensures Partitions(StratumSets(cfg, shuffled)[s], StratumLeftovers(cfg, shuffled)[s], Elems(cfg.strata[s].ids))
  {
    PermutationDistinct(cfg.strata[s].ids, shuffled[s]);
    GroupsPartition(shuffled[s], cfg.nGroups, cfg.subgroupSize, cfg.allowOverflow[s]);
  }

  /** An ID of stratum `s` belongs to no other stratum. */
  lemma PlacedInOneStratum(roster: seq<Id>, strata: seq<Stratum>, s: nat, t: nat, x: Id)
    requires IsStratification(roster, strata)
    requires s < |strata| && t < |strata| && s != t
    requires x in Elems(strata[s].ids)
    ensures x !in Elems(strata[t].ids)
  {
  }

  /** An ID in stratum `s`'s `i`-th set is in no other stratum's sets or leftover, and in no other set or the leftover of its own stratum. */
  lemma PlacedOnce(roster: seq<Id>, cfg: Config, shuffled: seq<seq<Id>>, s: nat, i: nat, x: Id)
    requires IsStratification(roster, cfg.strata)
    requires CanGroup(cfg) && IsShuffleOf(shuffled, cfg.strata)
    requires s < |cfg.strata| && i < cfg.nGroups && x in StratumSets(cfg, shuffled)[s][i]
    ensures x in roster
    ensures forall t, j :: 0 <= t < |cfg.strata| && 0 <= j < cfg.nGroups && j != i ==> x !in StratumSets(cfg, shuffled)[t][j]
    ensures forall t :: 0 <= t < |cfg.strata| ==> x !in StratumLeftovers(cfg, shuffled)[t]
  {
    var sets := StratumSets(cfg, shuffled);
    var lefts := StratumLeftovers(cfg, shuffled);
    StratumPartition(cfg, shuffled, s);
    assert x in Elems(cfg.strata[s].ids);
    forall t | 0 <= t < |cfg.strata|
      ensures forall j :: 0 <= j < cfg.nGroups && j != i ==> x !in sets[t][j]
      ensures x !in lefts[t]
    {
      if t != s {
        StratumPartition(cfg, shuffled, t);
        PlacedInOneStratum(roster, cfg.strata, s, t, x);
      } else {
        forall j | 0 <= j < cfg.nGroups && j != i ensures x !in sets[t][j] {
          if i < j {
            assert sets[s][i] !! sets[s][j];
          } else {
            assert sets[s][j] !! sets[s][i];
          }
        }
      }
    }
  }

  /** A leftover ID of stratum `s` is in the roster and in no stratum's sets. */
  lemma LeftOnce(roster: seq<Id>, cfg: Config, shuffled: seq<seq<Id>>, s: nat, x: Id)
    requires IsStratification(roster, cfg.strata)
    requires CanGroup(cfg) && IsShuffleOf(shuffled, cfg.strata)
    requires s < |cfg.strata| && x in StratumLeftovers(cfg, shuffled)[s]
    ensures x in roster
    ensures forall t, j :: 0 <= t < |cfg.strata| && 0 <= j < cfg.nGroups ==> x !in StratumSets(cfg, shuffled)[t][j]
  {
    StratumPartition(cfg, shuffled, s);
    assert x in Elems(cfg.strata[s].ids);
    forall t, j | 0 <= t < |cfg.strata| && 0 <= j < cfg.nGroups ensures x !in StratumSets(cfg, shuffled)[t][j] {
      if t != s {
        StratumPartition(cfg, shuffled, t);
        PlacedInOneStratum(roster, cfg.strata, s, t, x);
      }
    }
  }

  /** A roster ID is placed by its stratum in some set or in that stratum's leftover. */
  lemma RosterPlaced(roster: seq<Id>, cfg: Config, shuffled: seq<seq<Id>>, x: Id)
    requires IsStratification(roster, cfg.strata)
    requires CanGroup(cfg) && IsShuffleOf(shuffled, cfg.strata)
    requires x in roster
    ensures exists s ::
              && 0 <= s < |cfg.strata|
              && (x in StratumLeftovers(cfg, shuffled)[s] || exists i :: 0 <= i < cfg.nGroups && x in StratumSets(cfg, shuffled)[s][i])
  {
    var s :| 0 <= s < |cfg.strata| && x in cfg.strata[s].ids;
    StratumPartition(cfg, shuffled, s);
    assert x in Elems(cfg.strata[s].ids);
  }

  /**
   * Each attempt's merged proposal and flattened leftover partition the
   * roster: every participant is in exactly one group or in the leftover,
   * never in two places, and no one else appears.
   */
  lemma ProposalPartition(roster: seq<Id>, cfg: Config, shuffled: seq<seq<Id>>)
    requires IsStratification(roster, cfg.strata)
    requires CanGroup(cfg) && IsShuffleOf(shuffled, cfg.strata)
    ensures Partitions(Proposal(cfg, shuffled), ProposalLeftover(cfg, shuffled), Elems(roster))
  {
    GroupsDisjoint(roster, cfg, shuffled);
    GroupsMissLeftover(roster, cfg, shuffled);
    ProposalCovers(roster, cfg, shuffled);
  }

  /** No participant is in two groups of a proposal. */
  lemma GroupsDisjoint(roster: seq<Id>, cfg: Config, shuffled: seq<seq<Id>>)
    requires IsStratification(roster, cfg.strata)
    requires CanGroup(cfg) && IsShuffleOf(shuffled, cfg.strata)
    ensures var proposal := Proposal(cfg, shuffled);
      forall i, j :: 0 <= i < j < |proposal| ==> proposal[i] !! proposal[j]
  {
    var sets := StratumSets(cfg, shuffled);
    var proposal := Proposal(cfg, shuffled);
    forall i, j | 0 <= i < j < |proposal| ensures proposal[i] !! proposal[j] {
      forall x | x in proposal[i] ensures x !in proposal[j] {
        var s :| 0 <= s < |sets| && x in sets[s][i];
        PlacedOnce(roster, cfg, shuffled, s, i, x);
      }
    }
  }

  /** No grouped participant is also in the leftover. */
  lemma GroupsMissLeftover(roster: seq<Id>, cfg: Config, shuffled: seq<seq<Id>>)
    requires IsStratification(roster, cfg.strata)
    requires CanGroup(cfg) && IsShuffleOf(shuffled, cfg.strata)
    ensures var proposal := Proposal(cfg, shuffled);
      forall i :: 0 <= i < |proposal| ==> proposal[i] !! ProposalLeftover(cfg, shuffled)
  {
    var sets := StratumSets(cfg, shuffled);
    var proposal := Proposal(cfg, shuffled);
    var leftover := ProposalLeftover(cfg, shuffled);
    forall i | 0 <= i < |proposal| ensures proposal[i] !! leftover {
      forall x | x in proposal[i] ensures x !in leftover {
        var s :| 0 <= s < |sets| && x in sets[s][i];
        PlacedOnce(roster, cfg, shuffled, s, i, x);
      }
    }
  }

  /** The groups and the leftover hold exactly the roster. */
  lemma ProposalCovers(roster: seq<Id>, cfg: Config, shuffled: seq<seq<Id>>)
    requires IsStratification(roster, cfg.strata)
    requires CanGroup(cfg) && IsShuffleOf(shuffled, cfg.strata)
    ensures var proposal := Proposal(cfg, shuffled);
      forall x :: x in Elems(roster) <==> x in ProposalLeftover(cfg, shuffled) || exists i :: 0 <= i < |proposal| && x in proposal[i]
  {
    var proposal := Proposal(cfg, shuffled);
    var leftover := ProposalLeftover(cfg, shuffled);
    forall x ensures x in Elems(roster) <==> x in leftover || exists i :: 0 <= i < |proposal| && x in proposal[i] {
      if x in roster {
        MemberPlaced(roster, cfg, shuffled, x);
      }
      if x in leftover {
        LeftoverMember(roster, cfg, shuffled, x);
      }
      if i :| 0 <= i < |proposal| && x in proposal[i] {
        GroupMember(roster, cfg, shuffled, i, x);
      }
    }
  }

  /** A participant of the roster is in some group of the proposal or in its leftover. */
  lemma MemberPlaced(roster: seq<Id>, cfg: Config, shuffled: seq<seq<Id>>, x: Id)
    requires IsStratification(roster, cfg.strata)
    requires CanGroup(cfg) && IsShuffleOf(shuffled, cfg.strata)
    requires x in roster
    ensures var proposal := Proposal(cfg, shuffled);
      x in ProposalLeftover(cfg, shuffled) || exists i :: 0 <= i < |proposal| && x in proposal[i]
  {
    var sets := StratumSets(cfg, shuffled);
    var lefts := StratumLeftovers(cfg, shuffled);
    RosterPlaced(roster, cfg, shuffled, x);
    var s :| 0 <= s < |cfg.strata| && (x in lefts[s] || exists i :: 0 <= i < cfg.nGroups && x in sets[s][i]);
    if x !in lefts[s] {
      var i :| 0 <= i < cfg.nGroups && x in sets[s][i];
      assert x in Proposal(cfg, shuffled)[i];
    }
  }

  /** Everyone in the leftover of a proposal is on the roster. */
  lemma LeftoverMember(roster: seq<Id>, cfg: Config, shuffled: seq<seq<Id>>, x: Id)
    requires IsStratification(roster, cfg.strata)
    requires CanGroup(cfg) && IsShuffleOf(shuffled, cfg.strata)
    requires x in ProposalLeftover(cfg, shuffled)
    ensures x in roster
  {
    var lefts := StratumLeftovers(cfg, shuffled);
    var s :| 0 <= s < |lefts| && x in lefts[s];
    LeftOnce(roster, cfg, shuffled, s, x);
  }

  /** Everyone in a group of a proposal is on the roster. */
  lemma GroupMember(roster: seq<Id>, cfg: Config, shuffled: seq<seq<Id>>, i: nat, x: Id)
    requires IsStratification(roster, cfg.strata)
    requires CanGroup(cfg) && IsShuffleOf(shuffled, cfg.strata)
    requires i < |Proposal(cfg, shuffled)| && x in Proposal(cfg, shuffled)[i]
    ensures x in roster
  {
    var sets := StratumSets(cfg, shuffled);
    var s :| 0 <= s < |sets| && x in sets[s][i];
    PlacedOnce(roster, cfg, shuffled, s, i, x);
  }



  /**
   * The shape of each attempt's proposal: exactly `nGroups` groups; the
   * members of group `i` from stratum `s` are exactly that stratum's `i`-th
   * set, so every group holds at least `subgroupSize` participants from
   * each stratum, and exactly that many from a stratum whose overflow is
   * not dealt out or that has none.
   */
  lemma ProposalShape(roster: seq<Id>, cfg: Config, shuffled: seq<seq<Id>>)
    requires IsStratification(roster, cfg.strata)
    requires CanGroup(cfg) && IsShuffleOf(shuffled, cfg.strata)
    ensures |Proposal(cfg, shuffled)| == cfg.nGroups
    ensures forall i, s :: 0 <= i < cfg.nGroups && 0 <= s < |cfg.strata| ==>
      Proposal(cfg, shuffled)[i] * Elems(cfg.strata[s].ids) == StratumSets(cfg, shuffled)[s][i]
    ensures forall i, s :: 0 <= i < cfg.nGroups && 0 <= s < |cfg.strata| ==>
      && |Proposal(cfg, shuffled)[i] * Elems(cfg.strata[s].ids)| >= cfg.subgroupSize
      && (!cfg.allowOverflow[s] || |cfg.strata[s].ids| == cfg.nGroups * cfg.subgroupSize ==>
            |Proposal(cfg, shuffled)[i] * Elems(cfg.strata[s].ids)| == cfg.subgroupSize)
  {
    forall i, s | 0 <= i < cfg.nGroups && 0 <= s < |cfg.strata|
      ensures Proposal(cfg, shuffled)[i] * Elems(cfg.strata[s].ids) == StratumSets(cfg, shuffled)[s][i]
      ensures |StratumSets(cfg, shuffled)[s][i]| >= cfg.subgroupSize
      ensures !cfg.allowOverflow[s] || |cfg.strata[s].ids| == cfg.nGroups * cfg.subgroupSize ==>
        |StratumSets(cfg, shuffled)[s][i]| == cfg.subgroupSize
    {
      GroupInStratum(roster, cfg, shuffled, i, s);
      PermutationDistinct(cfg.strata[s].ids, shuffled[s]);
      GroupSizes(shuffled[s], cfg.nGroups, cfg.subgroupSize, cfg.allowOverflow[s]);
    }
  }

  lemma GroupInStratum(roster: seq<Id>, cfg: Config, shuffled: seq<seq<Id>>, i: nat, s: nat)
    requires IsStratification(roster, cfg.strata)
    requires CanGroup(cfg) && IsShuffleOf(shuffled, cfg.strata)
    requires i < cfg.nGroups && s < |cfg.strata|
    ensures Proposal(cfg, shuffled)[i] * Elems(cfg.strata[s].ids) == StratumSets(cfg, shuffled)[s][i]
  {
    var sets := StratumSets(cfg, shuffled);
    var proposal := Proposal(cfg, shuffled);
    StratumPartition(cfg, shuffled, s);
    forall x | x in proposal[i] * Elems(cfg.strata[s].ids) ensures x in sets[s][i] {
      var t :| 0 <= t < |sets| && x in sets[t][i];
      if t != s {
        StratumPartition(cfg, shuffled, t);
        PlacedInOneStratum(roster, cfg.strata, s, t, x);
      }
    }
  }

  /**
   * The number of groups is the smallest stratum's size divided by the whole
   * group size, not by the per-stratum share. With strata of sizes 1 and 2
   * and a group size of 2 the setup succeeds with no groups at all. Both
   * strata then have overflow to deal into zero sets, so the first attempt
   * fails with a modulo by zero and the run ends there.
   */
  lemma NoGroupsWithOverflow()
    ensures var strata := [Stratum("x", ["a"]), Stratum("y", ["b", "c"])];
      var setup := Setup(["a", "b", "c"], Some(strata), 2, Uniform(true));
      && setup.Ok?
      && setup.value.nGroups == 0
      && setup.value.subgroupSize == 1
      && OverflowWithoutGroups(setup.value)
  {
  }

  /**
   * One attempt's grouping: every stratum is grouped with its own shuffle,
   * the per-stratum sets are merged by index and the leftovers flattened.
   * The only failure left once the configuration is valid is the modulo by
   * zero of an overflowing stratum when there are no groups.
   */
  method GroupStrata(cfg: Config, shuffled: seq<seq<Id>>) returns (r: Result<Grouped>)
    requires ValidConfig(cfg) && IsShuffleOf(shuffled, cfg.strata)
    ensures r.Ok? <==> !OverflowWithoutGroups(cfg)
    ensures r.Err? ==> r.error == ZeroDivision
    ensures r.Ok? ==> CanGroup(cfg) && r.value == Grouped(Proposal(cfg, shuffled), ProposalLeftover(cfg, shuffled))
  {
    var sets: seq<seq<set<Id>>> := [];
    var lefts: seq<set<Id>> := [];
    for s := 0 to |cfg.strata|
      invariant |sets| == s && |lefts| == s
      invariant forall t :: 0 <= t < s ==>
        && Groupable(|cfg.strata[t].ids|, cfg.nGroups, cfg.subgroupSize, cfg.allowOverflow[t])
        && sets[t] == Groups(shuffled[t], cfg.nGroups, cfg.subgroupSize, cfg.allowOverflow[t])
        && lefts[t] == Leftover(shuffled[t], cfg.nGroups, cfg.subgroupSize, cfg.allowOverflow[t])
    {
      var grouped := ShuffleAndGroup(cfg.strata[s].ids, shuffled[s], cfg.nGroups, cfg.subgroupSize, cfg.allowOverflow[s]);
      if grouped.Err? {
        return Err(grouped.error);
      }
      sets := sets + [grouped.value.sets];
      lefts := lefts + [grouped.value.leftover];
    }
    assert CanGroup(cfg);
    assert sets == StratumSets(cfg, shuffled);
    assert lefts == StratumLeftovers(cfg, shuffled);
    r := Ok(Grouped(MergeByIndex(sets, cfg.nGroups), UnionAll(lefts)));
  }

  /** Attempt `shuffled` proposes groups that repeat some earlier group. */
  ghost predicate Rejected(cfg: Config, shuffled: seq<seq<Id>>, history: seq<set<Id>>)
    requires CanGroup(cfg) && IsShuffleOf(shuffled, cfg.strata)
  {
    Repeats.Repeats(Proposal(cfg, shuffled), history) != []
  }

  /** There is a shuffle of every stratum for each of the first `maxAttempts` attempts. */
  ghost predicate ShufflesFor(cfg: Config, shuffles: seq<seq<seq<Id>>>, maxAttempts: nat) {
    && maxAttempts <= |shuffles|
    && forall a :: 0 <= a < maxAttempts ==> IsShuffleOf(shuffles[a], cfg.strata)
  }

  /**
   * Whether each of the first `maxAttempts` attempts would be rejected:
   * `Verdicts(...)[a]` holds when attempt `a + 1` proposes a repeat.
   */
  ghost function Verdicts(cfg: Config, history: seq<set<Id>>, maxAttempts: nat, shuffles: seq<seq<seq<Id>>>): (v: seq<bool>)
    requires CanGroup(cfg) && ShufflesFor(cfg, shuffles, maxAttempts)
  {
    seq(maxAttempts, a requires 0 <= a < maxAttempts => Rejected(cfg, shuffles[a], history))
  }

  /** An attempt is rejected exactly when its repeat list is not empty. */
  lemma VerdictOf(cfg: Config, history: seq<set<Id>>, maxAttempts: nat, shuffles: seq<seq<seq<Id>>>, a: nat, repeats: seq<set<Id>>)
    requires CanGroup(cfg) && ShufflesFor(cfg, shuffles, maxAttempts) && a < maxAttempts
    requires repeats == Repeats.Repeats(Proposal(cfg, shuffles[a]), history)
    ensures Verdicts(cfg, history, maxAttempts, shuffles)[a] <==> |repeats| != 0
  {
  }

  /**
   * The number of attempts a rejection-sampling loop makes when it has
   * already made `a` rejected ones and `rejected` says which attempts would
   * be rejected: it stops after the first attempt that is not rejected, or
   * when the attempts run out.
   */
  function AttemptsMade(rejected: seq<bool>, a: nat): (attempts: nat)
    requires a <= |rejected|
    decreases |rejected| - a
  {
    if a == |rejected| then a
    else if !rejected[a] then a + 1
    else AttemptsMade(rejected, a + 1)
  }

  /**
   * The loop stops within its budget, after every attempt before the last
   * was rejected, and on an accepted attempt unless the budget ran out.
   */
  lemma {:induction false} AttemptsMadeBounds(rejected: seq<bool>, a: nat)
    requires a < |rejected|
    ensures var n := AttemptsMade(rejected, a);
      && a < n <= |rejected|
      && (forall b :: a <= b < n - 1 ==> rejected[b])
      && (n < |rejected| ==> !rejected[n - 1])
    decreases |rejected| - a
  {
    if a + 1 < |rejected| && rejected[a] {
      AttemptsMadeBounds(rejected, a + 1);
    }
  }

  /** One more attempt either stops the loop or leaves it to the next one. */
  lemma AttemptsMadeStep(rejected: seq<bool>, a: nat, accepted: bool)
    requires a < |rejected| && AttemptsMade(rejected, 0) == AttemptsMade(rejected, a)
    requires rejected[a] <==> !accepted
    ensures AttemptsMade(rejected, 0) == if accepted then a + 1 else AttemptsMade(rejected, a + 1)
  {
  }

  /**
   * When the loop exits, on acceptance or with the budget spent, the
   * attempts made are the ones it counted, and all but the last were
   * rejected.
   */
  lemma AttemptsMadeExit(rejected: seq<bool>, n: nat, accepted: bool)
    requires 0 < n <= |rejected| && (accepted || n == |rejected|)
    requires AttemptsMade(rejected, 0) == if accepted then n else AttemptsMade(rejected, n)
    ensures AttemptsMade(rejected, 0) == n
    ensures forall b :: 0 <= b < n - 1 ==> rejected[b]
  {
    AttemptsMadeBounds(rejected, 0);
  }

  /** With no history nothing is ever rejected, so the first attempt is the last. */
  lemma NoHistoryOneAttempt(cfg: Config, maxAttempts: nat, shuffles: seq<seq<seq<Id>>>)
    requires CanGroup(cfg) && ShufflesFor(cfg, shuffles, maxAttempts) && maxAttempts >= 1
    ensures AttemptsMade(Verdicts(cfg, [], maxAttempts, shuffles), 0) == 1
  {
    RepeatsEmptyIff(Proposal(cfg, shuffles[0]), []);
  }

  /**
   * What the search promises about its outcome: it is the last attempt's
   * proposal and leftover with that proposal's repeats, the proposal is
   * accepted exactly when it has no repeats, the search stops early only on
   * acceptance, and every earlier attempt was rejected.
   */
  ghost predicate SearchOutcome(cfg: Config, history: seq<set<Id>>, maxAttempts: nat, shuffles: seq<seq<seq<Id>>>, o: Outcome)
  {
    && CanGroup(cfg)
    && ShufflesFor(cfg, shuffles, maxAttempts)
    && 1 <= o.attempts <= maxAttempts
    && o.attempts == AttemptsMade(Verdicts(cfg, history, maxAttempts, shuffles), 0)
    && o.proposal == Proposal(cfg, shuffles[o.attempts - 1])
    && o.leftover == ProposalLeftover(cfg, shuffles[o.attempts - 1])
    && o.repeats == Repeats.Repeats(o.proposal, history)
    && (o.accepted <==> o.repeats == [])
    && (o.accepted || o.attempts == maxAttempts)
    && (forall a :: 0 <= a < o.attempts - 1 ==> Rejected(cfg, shuffles[a], history))
  }

  /**
   * The state of the search loop after `st.attempts` attempts: the latest
   * attempt's proposal, leftover and repeats, whether it was accepted, and
   * how many attempts the whole search will make, given the verdicts `v`
   * of every attempt.
   */
  ghost predicate SearchState(cfg: Config, history: seq<set<Id>>, maxAttempts: nat, shuffles: seq<seq<seq<Id>>>, v: seq<bool>, st: Outcome)
  {
    && ShufflesFor(cfg, shuffles, maxAttempts)
    && |v| == maxAttempts
    && st.attempts <= maxAttempts
    && (st.attempts == 0 ==> !st.accepted)
    && (st.attempts > 0 ==>
      && CanGroup(cfg)
      && st.proposal == Proposal(cfg, shuffles[st.attempts - 1])
      && st.leftover == ProposalLeftover(cfg, shuffles[st.attempts - 1])
      && st.repeats == Repeats.Repeats(st.proposal, history)
      && (st.accepted <==> st.repeats == [])
      && AttemptsMade(v, 0) == if st.accepted then st.attempts else AttemptsMade(v, st.attempts))
  }

  /** One more attempt, made after a rejected one, keeps the loop state. */
  lemma SearchStep(cfg: Config, history: seq<set<Id>>, maxAttempts: nat, shuffles: seq<seq<seq<Id>>>, v: seq<bool>, st: Outcome, next: Outcome)
    requires SearchState(cfg, history, maxAttempts, shuffles, v, st)
    requires !st.accepted && st.attempts < maxAttempts && CanGroup(cfg)
    requires v[st.attempts] <==> !next.accepted
    requires next.attempts == st.attempts + 1
    requires next.proposal == Proposal(cfg, shuffles[st.attempts])
    requires next.leftover == ProposalLeftover(cfg, shuffles[st.attempts])
    requires next.repeats == Repeats.Repeats(next.proposal, history)
    requires next.accepted == (|next.repeats| == 0)
    ensures SearchState(cfg, history, maxAttempts, shuffles, v, next)
  {
    AttemptsMadeStep(v, st.attempts, next.accepted);
  }

  /** When the loop ends, its state is the promised outcome. */
  lemma SearchDone(cfg: Config, history: seq<set<Id>>, maxAttempts: nat, shuffles: seq<seq<seq<Id>>>, st: Outcome)
    requires CanGroup(cfg) && ShufflesFor(cfg, shuffles, maxAttempts)
    requires SearchState(cfg, history, maxAttempts, shuffles, Verdicts(cfg, history, maxAttempts, shuffles), st)
    requires maxAttempts >= 1 && (st.accepted || st.attempts >= maxAttempts)
    ensures SearchOutcome(cfg, history, maxAttempts, shuffles, st)
    ensures st.accepted ==> NoRepeats(st.proposal, history)
    ensures history == [] ==> st.attempts == 1 && st.accepted
  {
    var v := Verdicts(cfg, history, maxAttempts, shuffles);
    AttemptsMadeExit(v, st.attempts, st.accepted);
    forall a | 0 <= a < st.attempts - 1 ensures Rejected(cfg, shuffles[a], history) {
      assert v[a];
    }
    RepeatsEmptyIff(st.proposal, history);
    if history == [] {
      NoHistoryOneAttempt(cfg, maxAttempts, shuffles);
    }
  }

  /**
   * The rejection-sampling loop. Attempt `a` (from 1) groups every stratum
   * with the shuffles `shuffles[a - 1]` and computes the repeats of the
   * merged proposal against `history`; the loop stops at the first attempt
   * without repeats or after `maxAttempts` attempts, and the result is the
   * last attempt's proposal with its flattened leftover.
   */
  method Search(cfg: Config, history: seq<set<Id>>, maxAttempts: nat, shuffles: seq<seq<seq<Id>>>)
    returns (r: Result<Outcome>)
    requires ValidConfig(cfg)
    requires maxAttempts >= 1 && ShufflesFor(cfg, shuffles, maxAttempts)
    ensures r.Ok? <==> !OverflowWithoutGroups(cfg)
    ensures r.Err? ==> r.error == ZeroDivision
    ensures r.Ok? ==> SearchOutcome(cfg, history, maxAttempts, shuffles, r.value)
    ensures r.Ok? && r.value.accepted ==> NoRepeats(r.value.proposal, history)
    ensures r.Ok? && history == [] ==> r.value.attempts == 1 && r.value.accepted
  {
    var st := Outcome([], {}, 0, false, []);
    ghost var v := if CanGroup(cfg) then Verdicts(cfg, history, maxAttempts, shuffles) else seq(maxAttempts, _ => false);
    while !st.accepted && st.attempts < maxAttempts
      invariant SearchState(cfg, history, maxAttempts, shuffles, v, st)
      decreases maxAttempts - st.attempts
    {
      var grouped := GroupStrata(cfg, shuffles[st.attempts]);
      if grouped.Err? {
        return Err(grouped.error);
      }
      var repeats := GetRepeats(grouped.value.sets, history);
      var next := Outcome(grouped.value.sets, grouped.value.leftover, st.attempts + 1, |repeats| == 0, repeats);
      VerdictOf(cfg, history, maxAttempts, shuffles, st.attempts, repeats);
      SearchStep(cfg, history, maxAttempts, shuffles, v, st, next);
      st := next;
    }
    SearchDone(cfg, history, maxAttempts, shuffles, st);
    r := Ok(st);
  }

  /**
   * The whole assignment: setup, then the rejection-sampling loop. The
   * outcome's proposal and leftover partition the roster.
   */
  method Assign(roster: seq<Id>, history: seq<set<Id>>, groupSize: nat, stratification: Option<seq<Stratum>>,
                overflow: OverflowPolicy, maxAttempts: nat, shuffles: seq<seq<seq<Id>>>)
    returns (r: Result<Outcome>)
    requires Distinct(roster)
    requires stratification.Some? ==> IsStratification(roster, stratification.value)
    requires maxAttempts >= 1 && |shuffles| >= maxAttempts
    requires forall a :: 0 <= a < maxAttempts ==> IsShuffleOf(shuffles[a], StrataOf(roster, stratification))
    ensures Setup(roster, stratification, groupSize, overflow).Err? ==>
      r == Err(Setup(roster, stratification, groupSize, overflow).error)
    ensures Setup(roster, stratification, groupSize, overflow).Ok? ==>
      (r.Err? <==> OverflowWithoutGroups(Setup(roster, stratification, groupSize, overflow).value))
      && (r.Err? ==> r.error == ZeroDivision)
    ensures r.Ok? ==>
      && Setup(roster, stratification, groupSize, overflow).Ok?
      && SearchOutcome(Setup(roster, stratification, groupSize, overflow).value, history, maxAttempts, shuffles, r.value)
    ensures r.Ok? ==> Partitions(r.value.proposal, r.value.leftover, Elems(roster))
    ensures r.Ok? && r.value.accepted ==> NoRepeats(r.value.proposal, history)
    ensures r.Ok? && history == [] ==> r.value.attempts == 1 && r.value.accepted
  {
    var setup := Setup(roster, stratification, groupSize, overflow);
    if setup.Err? {
      return Err(setup.error);
    }
    var cfg := setup.value;
    assert ShufflesFor(cfg, shuffles, maxAttempts);
    r := Search(cfg, history, maxAttempts, shuffles);
    if r.Ok? {
      StrataOfIsStratification(roster, stratification);
      ProposalPartition(roster, cfg, shuffles[r.value.attempts - 1]);
    }
  }
}
