# Lunch tag group assignment, modelled in Dafny

This project models the group assignment engine of lunch tag. The engine
takes a roster of participant IDs and splits it into groups of a requested
size. It can stratify the roster by an attribute, so that every group mixes
the strata evenly. It avoids repeating earlier groups by rejection sampling:
it keeps drawing random groupings until one shares at most one participant
with every previous group, or until it runs out of attempts.

The model follows `lunchtag/assignment.py` part by part.

- `sets.dfy`
  - Module `Sets`: participant IDs, distinct sequences, unions of sets, and
    the partition predicate.
  - Module `Errors`: the error paths, as a `Result` datatype with one error
    per exception the engine raises.
- `grouping.dfy`, module `Grouping`: grouping one stratum.
  - The shuffled IDs are cut into `nGroups` blocks of `k`.
  - The overflow is then dealt round-robin into the blocks, or set aside as
    leftover.
  - `ShuffleAndGroup` is the loop-based method; its round-robin loop is
    `DealOverflow`. `Groups` and `Leftover` are the functions that specify
    them.
- `repeats.dfy`, module `Repeats`: repeat detection.
  - `GetRepeats` is the nested loop.
  - `Repeats` is the function that specifies it, in proposal-major, then
    history order.
- `assignment.dfy`, module `Assignment`: the whole engine.
  - `Setup` validates the inputs and derives the configuration: the strata,
    the per-stratum overflow flags, `nGroups` and `subgroupSize`.
  - `GroupStrata` makes one attempt. It groups every stratum, merges the
    strata's sets by index (`MergeByIndex`) and flattens the leftovers.
  - `Search` is the rejection-sampling `while` loop. `AttemptsMade` counts
    the attempts it makes from the verdict of every attempt, and
    `SearchState` is its loop invariant.
  - `Assign` runs setup and then the search.

Randomness is an input. `shuffles[a][s]` is the shuffled order of stratum
`s` in attempt `a`. Each shuffle is required to be a permutation of its
stratum, that is, to have the same multiset of IDs. The same goes for
stratification: the strata are an input, `Some(strata)`, that must split the
roster. They have distinct names, are pairwise disjoint, have no repeated
IDs, and together hold exactly the roster's IDs. `None` stands for the
unstratified case, a single stratum named `"all"`.

Every exception the model keeps is an `Err` result (the others are listed
under "Left out"):

- a group size larger than the roster (`GroupSizeExceedsRoster`);
- a group size that is not a multiple of the number of strata
  (`IndivisibleGroupSize`);
- an overflow map whose keys are not the strata names
  (`OverflowKeysMismatch`);
- a stratum smaller than `nGroups * k` (`Underflow`);
- a zero range step (`ZeroStep`);
- a division or modulo by zero (`ZeroDivision`).

The number of groups is the size of the smallest stratum divided by the
whole group size (lunchtag/assignment.py:53). It is not divided by the
per-stratum share `group_size // number_of_strata`. The model computes it the
same way. One consequence is that setup can succeed with zero groups while
some stratum still has participants to deal out. The first attempt then
fails on the modulo by the number of sets (lunchtag/assignment.py:112), and
the run ends there without a retry; `Assignment.Search` returns that error.
`Assignment.NoGroupsWithOverflow` shows such an input: strata of sizes 1 and
2 with a group size of 2. `Assignment.Assign` states exactly when it
happens.

## Model

| member | source | states |
|---|---|---|
| Sets.UnionAll | lunchtag/assignment.py:73-76 | An ID is in the union exactly when it is in one of the sets. This covers both the per-index union of the strata's sets and the flattening of the leftovers. |
| Sets.DistinctCard | lunchtag/assignment.py:104 | A slice of distinct IDs turned into a set keeps all of its members, so it has as many elements as positions. |
| Sets.PermutationDistinct | lunchtag/assignment.py:99-101 | A shuffle of distinct IDs has no repeats and holds the same IDs as the stratum. |
| Grouping.ShuffleAndGroup | lunchtag/assignment.py:90-115 | It succeeds exactly when the stratum holds at least `nGroups*k` IDs, `k > 0`, and overflow is not dealt into zero sets. Its errors come in the order `_shuffle_and_group` raises them: Underflow, then a zero range step, then modulo by zero. On success it returns `Groups` and `Leftover` of the shuffle. When the stratum's IDs are distinct, those sets and that leftover partition the stratum. |
| Grouping.DealOverflow | lunchtag/assignment.py:108-112 | Overflow is dealt round robin: the overflow ID with index `j` joins set `j % nGroups`, and set `i` ends up as its block plus `RoundRobinShare` of the overflow. With zero sets to deal into, the modulo fails with ZeroDivision; it succeeds exactly when there is at least one set. |
| Grouping.ShuffledPartition | lunchtag/assignment.py:99-114 | Grouping any shuffle of a stratum without repeated IDs partitions that stratum. |
| Grouping.RoundRobinShareMembers | lunchtag/assignment.py:111-112 | An overflow ID is added to set `i` exactly when its overflow index `j` has `j % n == i`. |
| Grouping.ChunkPositionPlaced | lunchtag/assignment.py:103-104 | The ID at a shuffled position `p < nGroups*k` lies in set `p / k`, and `p / k < nGroups`. |
| Grouping.PositionPlaced | lunchtag/assignment.py:101-114 | Every shuffled position is placed where `Slot` says. That is set `p / k` before the overflow, set `(p - nGroups*k) % nGroups` when overflow is dealt out, and the leftover otherwise. |
| Grouping.GroupMemberPosition | lunchtag/assignment.py:101-112 | Every member of set `i` comes from a shuffled position that `Slot` sends to set `i`. |
| Grouping.LeftoverMemberPosition | lunchtag/assignment.py:107-114 | Every leftover ID comes from a shuffled position at or after `nGroups*k` that `Slot` sends to the leftover. |
| Grouping.GroupMembersPositioned | lunchtag/assignment.py:101-112 | This is the quantified form of GroupMemberPosition, for every member of set `i`. |
| Grouping.LeftoverMembersPositioned | lunchtag/assignment.py:107-114 | This is the quantified form of LeftoverMemberPosition, for every leftover ID. |
| Grouping.GroupsPartition | lunchtag/assignment.py:96-114 | When the shuffled IDs are distinct and the stratum is large enough, the sets are pairwise disjoint and disjoint from the leftover. Together they hold exactly the stratum's IDs. |
| Grouping.GroupSizes | lunchtag/assignment.py:101-114 | There are exactly `nGroups` sets. Set `i` starts as exactly the `k` distinct IDs at positions `[i*k, i*k+k)`. Every set keeps that block and has at least `k` members. When overflow is not dealt out, or there is none, each set is exactly its block. |
| Grouping.ChunkSize | lunchtag/assignment.py:103-104 | Block `i` of distinct shuffled IDs has exactly `k` members. |
| Grouping.SetAtLeastChunk | lunchtag/assignment.py:104-112 | Overflow only adds to a set, so set `i` is at least as large as its block. |
| Grouping.RoundRobinPlacement | lunchtag/assignment.py:108-112 | With overflow dealt out, the leftover is empty and `nGroups > 0` whenever there is overflow. The `j`-th overflow ID is in set `j % nGroups`. |
| Grouping.FiveIntoTwoPairs | lunchtag/assignment.py:103-104 | Take five shuffled IDs `a..e`, two sets and `k = 2`. The blocks are `{a,b}` and `{c,d}`. |
| Grouping.FiveWithOverflow | lunchtag/assignment.py:107-112 | In the same example with overflow dealt out, the sets are `{a,b,e}` and `{c,d}` and nothing is left over. |
| Grouping.FiveWithoutOverflow | lunchtag/assignment.py:107-114 | In the same example without overflow, the sets are `{a,b}` and `{c,d}` and `e` is left over. |
| Repeats.GetRepeats | lunchtag/assignment.py:117-126 | The nested loop returns exactly `Repeats(proposal, history)`. |
| Repeats.RepeatsWithMembers | lunchtag/assignment.py:120-125 | For one proposed group, every reported item is its intersection with some previous group and has at least 2 members. Every such intersection is reported. |
| Repeats.RepeatsSound | lunchtag/assignment.py:117-126 | Every reported item is `proposal[i] * history[j]` for some `i` and `j`, and has at least 2 members. |
| Repeats.RepeatsComplete | lunchtag/assignment.py:117-126 | Every pair whose intersection has at least 2 members is reported. |
| Repeats.RepeatsEmptyIff | lunchtag/assignment.py:117-126 | The repeat list is empty exactly when every proposed group shares at most one member with every previous group. |
| Repeats.RepeatsAppend | lunchtag/assignment.py:119-125 | Items come in proposal-major order: the repeats of `first + second` are those of `first` followed by those of `second`. |
| Repeats.RepeatsWithAppend | lunchtag/assignment.py:120-125 | For one proposed group, items come in history order. |
| Assignment.MinSize | lunchtag/assignment.py:52-53 | The result is at most every stratum's size and equal to some stratum's size. |
| Assignment.OverflowFlags | lunchtag/assignment.py:48-51 | Every stratum gets one flag. |
| Assignment.OverflowFlagsPerStratum | lunchtag/assignment.py:48-51 | A single bool is expanded to every stratum. A map gives each stratum the entry under its name, and that entry exists. |
| Assignment.CapacityFits | lunchtag/assignment.py:53-54 | When `m` divides `groupSize`, the share `groupSize / m` is at least 1, and `(minSize / groupSize) * (groupSize / m) <= minSize`. |
| Assignment.StrataFit | lunchtag/assignment.py:47-54 | `nGroups = min // groupSize` and `subgroupSize = groupSize // m` with `m` dividing `groupSize`. These give `subgroupSize >= 1` and `nGroups*subgroupSize <= min`, so no stratum underflows. |
| Assignment.Setup | lunchtag/assignment.py:36-54 | Setup succeeds exactly when all of these hold: the group size is at most the roster size, at least one stratum, `groupSize % strata == 0`, the overflow map's keys equal the strata names, and `groupSize > 0`. On success, `nGroups = MinSize / groupSize`, `subgroupSize = groupSize / strata`, and the flags come from the policy. The configuration is valid, so no stratum underflows and the step is positive. |
| Assignment.SetupErrors | lunchtag/assignment.py:36-54 | The checks run in source order, and each failed check gives its own error. A group size larger than the roster comes first, then zero strata (a modulo by zero), then indivisibility, then the overflow keys, then a zero group size (a division by zero). |
| Assignment.UnstratifiedFit | lunchtag/assignment.py:45-54 | Without stratification and with a positive group size no larger than the roster, the smallest stratum holds at least one group and the share per stratum is the whole group size. |
| Assignment.SetupUnstratified | lunchtag/assignment.py:45-54 | When setup succeeds without stratification, there is at least one group and `subgroupSize == groupSize`. |
| Assignment.StrataOfIsStratification | lunchtag/assignment.py:41-46 | Both the single `"all"` stratum and a given stratification split the roster. |
| Assignment.Column | lunchtag/assignment.py:73 | An ID is in column `i` exactly when some stratum's `i`-th set holds it. |
| Assignment.MergeByIndex | lunchtag/assignment.py:73 | The merge has `nGroups` groups. Group `i` holds exactly the IDs in some stratum's `i`-th set. |
| Assignment.StratumSets | lunchtag/assignment.py:61 | There is one list of sets per stratum, and each list has `nGroups` sets. |
| Assignment.StratumLeftovers | lunchtag/assignment.py:61-62 | There is one leftover per stratum. |
| Assignment.StratumPartition | lunchtag/assignment.py:61 | Each stratum's sets and leftover partition that stratum. |
| Assignment.PlacedInOneStratum | lunchtag/assignment.py:41-44 | An ID of one stratum is in no other stratum. |
| Assignment.PlacedOnce | lunchtag/assignment.py:61-76 | An ID in stratum `s`'s `i`-th set is a roster ID. It is in no `j`-th set with `j != i` and in no leftover. |
| Assignment.LeftOnce | lunchtag/assignment.py:61-76 | A leftover ID is a roster ID and is in no set. |
| Assignment.RosterPlaced | lunchtag/assignment.py:61-76 | Every roster ID is in some stratum's sets or leftover. |
| Assignment.ProposalPartition | lunchtag/assignment.py:61-76 | Each attempt's merged proposal and flattened leftover partition the roster. Every participant is in exactly one group or in the leftover, and nobody else appears. |
| Assignment.GroupsDisjoint | lunchtag/assignment.py:61-73 | No participant is in two merged groups. |
| Assignment.GroupsMissLeftover | lunchtag/assignment.py:61-76 | No participant in a merged group is also in the flattened leftover. |
| Assignment.ProposalCovers | lunchtag/assignment.py:61-76 | An ID is on the roster exactly when it is in the leftover or in some merged group. |
| Assignment.MemberPlaced | lunchtag/assignment.py:61-76 | Every roster ID is in some merged group or in the leftover. |
| Assignment.LeftoverMember | lunchtag/assignment.py:61-76 | Every leftover ID is on the roster. |
| Assignment.GroupMember | lunchtag/assignment.py:61-73 | Every member of a merged group is on the roster. |
| Assignment.GroupInStratum | lunchtag/assignment.py:73 | The members of merged group `i` from stratum `s` are exactly that stratum's `i`-th set. |
| Assignment.ProposalShape | lunchtag/assignment.py:61-73 | There are exactly `nGroups` groups. Each group holds at least `subgroupSize` members of every stratum. It holds exactly that many when the stratum's overflow is not dealt out or it has no overflow. |
| Assignment.NoGroupsWithOverflow | lunchtag/assignment.py:53 | Take strata of sizes 1 and 2, a group size of 2 and overflow on. Setup succeeds with zero groups and `subgroupSize = 1`, and a stratum still has overflow to deal out. |
| Assignment.GroupStrata | lunchtag/assignment.py:61-76 | Once setup has succeeded, the attempt fails only when there are no groups and some overflowing stratum is nonempty, and then with a modulo by zero. Otherwise it returns the merged proposal and the flattened leftover. |
| Assignment.AttemptsMadeBounds | lunchtag/assignment.py:59-79 | The loop makes between 1 and the budget's number of attempts. Every attempt before the last was rejected. When the budget is not spent, the last attempt was accepted. |
| Assignment.AttemptsMadeExit | lunchtag/assignment.py:59-79 | When the loop exits, on acceptance or with the budget spent, the attempts made are the ones counted, and all but the last were rejected. |
| Assignment.NoHistoryOneAttempt | lunchtag/assignment.py:59-79 | With no previous groups nothing is rejected, so exactly one attempt is made. |
| Assignment.SearchStep | lunchtag/assignment.py:59-79 | One more attempt after a rejected one keeps the loop state. That state is the latest proposal, leftover and repeats, acceptance exactly when there are no repeats, and the attempt count the search will reach. |
| Assignment.SearchDone | lunchtag/assignment.py:59-79 | On exit, the loop state is the promised outcome. An accepted proposal repeats no previous group, and with no history one attempt is accepted. |
| Assignment.Search | lunchtag/assignment.py:55-79 | The loop fails exactly when there are no groups but overflow to deal. Otherwise it makes `AttemptsMade` attempts, between 1 and `maxAttempts`, and returns the last attempt's proposal, leftover and repeats. The proposal is accepted exactly when it has no repeats. The loop stops early only on acceptance, and every earlier attempt had repeats. On acceptance no group shares two members with a previous group. With an empty history the first attempt is accepted. |
| Assignment.Assign | lunchtag/assignment.py:36-88 | Setup errors are returned as they are. After setup, the run fails exactly in the zero-groups-with-overflow case. Otherwise it returns the outcome described for Search. The returned proposal and leftover partition the roster. |

## Left out

- `lunchtag/io.py` is not part of this model. Reading signups and writing
  and reading assignment files are file I/O over CSV.
- Progress and diagnostic printing (lunchtag/assignment.py:82-87) is left
  out. The outcome records instead whether the proposal was accepted, after
  how many attempts, and the repeats and leftover.
- Randomness is left out. `df.sample(frac=1)` becomes an input permutation
  per stratum per attempt. The model makes no claim about uniformity or
  independence.
- Pandas `groupby` is left out. Strata are given as an input that must split
  the roster. The check that the stratification column exists
  (lunchtag/assignment.py:42) is not modelled. The name order of the strata
  is taken as given.
  By default `groupby` drops participants whose stratification value is
  missing, so they end up in no group and no leftover. The model does not
  capture that: a stratification must cover the whole roster.
- The default arguments of `assign_rejection_sampling`
  (lunchtag/assignment.py:5-6) are not modelled. Those are an empty history,
  a group size of 2, no stratification, overflow allowed and 5000 attempts.
  `Assign` takes every argument explicitly.
- The runtime type checks of the history entries and of the overflow
  argument (lunchtag/assignment.py:37, 48) become Dafny types.
- A negative group size is not modelled, because the group size is a `nat`.
- A `max_attempts` of zero or less is not modelled: `maxAttempts >= 1` is
  required. In the source that case reaches unbound variables.
- The leftover is returned as a set rather than as lunchtag's flattened
  list, whose order follows set iteration and is unspecified. The source
  only prints the leftover and returns only the proposal. The model returns
  both, together with the attempt count and the repeats.
- Assignment.SetupErrors: with stratification and an empty roster there are no
  strata at all. The source then fails while unpacking the empty grouping
  (lunchtag/assignment.py:44), before its modulo by the number of strata.
  The model reports that case as `ZeroDivision`.
- Strata may be empty in the model, whereas `groupby` never yields an empty
  group. An empty stratum just gives zero groups.
