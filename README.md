# Strategic-voting engine of ams-tva, modelled in Dafny

This project models the core of the Tactical Voting Analyst (TVA). The TVA asks
how far a group of voters can gain by reporting insincere ballots under four
ordinal voting rules. The model covers:

- **The four rules** — plurality, voting for two, anti-plurality and Borda — in
  the three revisions the repository keeps:
  - `schemes.py` returns the winner and the full ranked order;
  - `schemes/__init__.py` returns the winner only;
  - `voting.py` takes the candidate list as a parameter.

  All of them score each candidate, sort the `(candidate, score)` items by the
  key `(-score, name)`, and take the first item. That shared design is written
  once (`Ranking.RankBy`), and every rule is shown to be an instance of it.
- **The happiness metric** of `voting.py`: `len(pref) - pref.index(outcome)`.
- **The coalition search** of `collusion.py`. For one group of voters it tries
  every combination of permutations of the members' ballots. It overwrites the
  members' rows of the preference matrix in place and restores each row before
  returning. It records every combination that strictly raises the group's
  happiness sum while no member loses.
- **The aggregator** `get_collusion_tva_result`. It runs the search for every
  group and every scheme and regroups the recorded options per voter.
- **The runoff truncation loop** of `main.py`. It cuts every ballot down, in
  place, to the top `R` candidates of the first-round order.

## How the model is laid out

| file | module | models |
|---|---|---|
| `names.dfy` | `Names` | candidates and ballots, Python's string order, `Counter` counts and key order, `list.index` |
| `ranking.dfy` | `Ranking` | the `(-score, name)` sort and the "rank by score, then by name" design |
| `scoring.dfy` | `Scoring` | the four tallies, and the `scores` dict loops of anti-plurality and Borda |
| `schemes.py` → `schemes.dfy` | `Schemes` | winner plus full order, `get_outcome_order` |
| `schemes_package.dfy` | `SchemesPackage` | `schemes/__init__.py` |
| `voting.dfy` | `Voting` | `voting.py`, including `happiness` |
| `permutations.dfy` | `Permute` | `itertools.permutations` |
| `collusion.dfy` | `Collusion` | the coalition search and the aggregator |
| `runoff.dfy` | `Runoff` | `main.py` lines 18-26 |

**Loops become methods.** Loops that update state in the source are methods
whose loop invariants tie them to a specification function:

- the `scores` dicts (`Scoring.TallyAntiPlurality`, `Scoring.TallyBorda`);
- `get_outcome_order`;
- `happiness`;
- the in-place search, over an `array<Ballot>`;
- the aggregator;
- the runoff loop, over an `array<Ballot>`.

Code built only from comprehensions and sorting (plurality, voting for two) is
written as functions.

**Helpers voting.py does not define become parameters.** collusion.py:6
imports `get_vote_result` and `get_strategic_voting_risk` from `voting`, and
main.py:3 imports `get_basic_tva_result` from it, but voting.py defines none of
the three. The first two are function-valued parameters:

- `get_vote_result` is a `VoteResultFn`, a pure, total and deterministic
  Dafny function. It is assumed to return one happiness level per voter
  (`Collusion.OneLevelPerVoter`). Being a Dafny function, it also never
  raises, gives the same result for the same matrix, and cannot write to the
  `system_preferences` list it is handed at collusion.py:11, 33 and 67. Two
  contracts rest on this:
  - the "matrix unchanged" clause `sys[..] == old(sys[..])` of
    `Collusion.StrategicOptionsForGroupRek`,
    `Collusion.StrategicOptionsForGroup` and `Collusion.CollusionTvaResult`
    relies on the call not writing to the matrix;
  - `Collusion.ReportedOptionsImprove` treats the sincere levels of each
    group search (collusion.py:11) as equal to `non_strategic_happiness_levels`
    (collusion.py:67), which come from a separate call on the same matrix.
- `get_strategic_voting_risk` is a `RiskFn`.

**What the code computes, as the model follows it:**

- **Happiness.** voting.py:41 computes the integer
  `len(pref) - pref.index(outcome)`, which runs from 1 to `len(pref)`.
- **Unranked candidates.** `get_outcome_order` (schemes.py:52-54) appends the
  candidates missing from a rule's ranking in the order of `preferences[0]`.
- **What each recorded option stores.** At collusion.py:48 each member's option
  carries that member's own happiness levels, but its
  `modified_preference_list` is `voter_prefs`, the ballot tried for the last
  member of the group (`Collusion.OptionSet`).
- **The overall-happiness field.** The option field named overall happiness
  receives the group's sum (collusion.py:36, 48), not the sum over all voters.

## Model

| member | source | states |
|---|---|---|
| Names.NameLessTotal | schemes.py:11 | Python's order on names, used to break ties, is total: two different names are always ordered one way or the other |
| Names.NameLessTransitive | schemes.py:11 | the name order is transitive |
| Names.Count | schemes.py:10 | a `Counter` entry is positive exactly for the candidates that occur, and never exceeds the number of votes |
| Names.Dedup | schemes.py:10 | the keys of a `Counter` or dict comprehension: no repeats, and exactly the values of the input |
| Names.AppendNew | schemes.py:52-54 | appending each not-yet-listed candidate keeps the existing prefix, adds only new names, adds every missing one, and keeps the list free of repeats |
| Names.AppendNewOrder | schemes.py:52-54 | the appended names follow the order in which they first occur in the candidate list |
| Names.DedupOrder | schemes.py:10 | the keys of a `Counter` or dict comprehension follow the order of first occurrence in the input |
| Names.NameLess | schemes.py:11 | Python's string comparison: character by character, a proper prefix first |
| Names.NameLessPrefix | schemes.py:11 | a proper prefix sorts before the longer name, as `"ab" < "abc"` |
| Names.IndexOf | voting.py:41 | `list.index` returns the first position holding the value |
| Ranking.BeforeTransitive | schemes.py:11 | the sort key `(-score, name)` orders items transitively |
| Ranking.BeforeAntisymmetric | schemes.py:11 | two items that may each stand before the other are the same item, so a stable and an unstable sort agree |
| Ranking.Rank | schemes.py:11 | the sort returns a rearrangement of its input that is non-increasing in score, with ties in ascending name order |
| Ranking.SortedUnique | schemes.py:11 | a multiset of items has only one sorted order |
| Ranking.RankIgnoresInputOrder | schemes.py:10-11 | the order in which `most_common()` lists tied items cannot change the sorted outcome |
| Ranking.RankBy | schemes.py:10-12 | ranking keys by a score gives one item per key, with that key's score, sorted by `(-score, name)` and without repeated names; its first item is a highest scorer with the smallest name among the tied |
| Ranking.RankByWinner | schemes.py:12 | `outcome[0][0]` is a highest scorer over the votes, and among equal scorers it has the smallest name |
| Ranking.HighestThenSmallestUnique | schemes/__init__.py:9-10 | only one candidate can be the highest scorer with the smallest name, so the winner is fixed by the scores alone |
| Scoring.FirstChoices | schemes.py:9 | one vote per voter: that voter's first choice |
| Scoring.TopTwoChoices | schemes.py:16 | two votes per voter: the first choices followed by the second choices |
| Scoring.LastChoices | schemes.py:24 | one entry per voter: that voter's last choice |
| Scoring.AntiPluralityScore | schemes.py:29-31 | a score lies between 0 and the number of voters, and equals the number of voters exactly for a candidate nobody ranks last |
| Scoring.TallyAntiPlurality | voting.py:17-23 | the dict loop gives every candidate key, in first-occurrence order, the number of voters minus its last places |
| Scoring.TallyBorda | voting.py:29-33 | the nested loop gives every candidate key the sum over ballots of `len(candidates) - i - 1` for its position `i` |
| Scoring.VoteCountsSum | schemes.py:10 | the counts of a `Counter` add up to the number of votes |
| Scoring.PluralityVotesSum | schemes.py:9-10 | plurality tallies add up to the number of voters |
| Scoring.VotingForTwoVotesSum | schemes.py:16-17 | voting-for-two tallies add up to twice the number of voters |
| Scoring.BallotPoints | schemes.py:41-43 | the points one ballot gives a candidate: `m - i - 1` summed over the positions `i` holding it |
| Scoring.BordaScore | schemes.py:40-43 | a candidate's Borda score is the sum over ballots of the points each ballot gives it |
| Scoring.BallotPointsAt | schemes.py:41-43 | on a ballot without repeats, the candidate at position `i` receives `m - i - 1` points |
| Scoring.BordaTopAndLast | voting.py:31-33 | on a full ballot, the top choice receives `m - 1` points and the last choice 0 |
| Scoring.BallotPointsSum | schemes.py:40-43 | one ballot hands out `(m-1) + (m-2) + ... + (m-n)` points over its `n` positions |
| Scoring.BordaBallotTotal | schemes.py:38-43 | a full ballot of `m` candidates hands out `m(m-1)/2` points in total |
| Scoring.BordaTotal | schemes.py:38-43 | with `v` full ballots, the Borda scores add up to `v * m(m-1)/2` |
| Schemes.OutcomeOrder | schemes.py:47-55 | the full order starts with the outcome's names in order, then lists exactly the candidates of `preferences[0]` outside the outcome, each once and in the order of `preferences[0]`; no name is listed twice when the outcome has no repeats |
| Schemes.GetOutcomeOrder | schemes.py:47-55 | the two append loops build exactly that order |
| Schemes.RankedOutcomeOrder | schemes.py:47-55 | the full order built from any ranking is sorted on its scored prefix, covers the candidates and has no repeats |
| Schemes.Plurality | schemes.py:7-12 | the winner has the most first places, ties to the smallest name; the full order is a ranked order of the tallies over `preferences[0]`, equal to `Schemes.OutcomeOrder` of the ranking (so the unscored candidates follow in `preferences[0]` order), and its first element is the winner |
| Schemes.VotingForTwo | schemes.py:14-19 | the same, for first and second places counted together, including the full order equal to `Schemes.OutcomeOrder` of the ranking |
| Schemes.AntiPlurality | schemes.py:21-34 | the winner is a candidate of `preferences[0]` maximising voters minus last places, ties to the smallest name; the full order is ranked and starts with the winner |
| Schemes.Borda | schemes.py:36-45 | the winner maximises the positional score with `m = len(preferences[0])`, ties to the smallest name; the full order is ranked and starts with the winner |
| SchemesPackage.AntiPlurality | schemes/__init__.py:19-32 | the winner is a candidate of `preferences[0]` maximising voters minus last places, ties to the smallest name, and it is the first item of the anti-plurality ranking |
| SchemesPackage.Borda | schemes/__init__.py:34-43 | the winner maximises the Borda score over `preferences[0]`, ties to the smallest name, and it is the first item of the Borda ranking |
| SchemesPackage.PluralitySameWinner | schemes/__init__.py:5-10 | the winner-only plurality equals the winner of schemes.py's plurality on the same input |
| SchemesPackage.VotingForTwoSameWinner | schemes/__init__.py:12-17 | the winner-only voting for two equals the winner of schemes.py's voting for two |
| Voting.Plurality | voting.py:3-7 | the winner has the most first places, ties to the smallest name, and it is some voter's first choice; the function is also the body of schemes/__init__.py:5-10 |
| Voting.VotingForTwo | voting.py:9-13 | the winner has the most first and second places together, ties to the smallest name, and it is some voter's first or second choice |
| Voting.AntiPlurality | voting.py:15-26 | the winner is one of the passed `candidates`, maximising voters minus last places, ties to the smallest name |
| Voting.Borda | voting.py:28-35 | the winner is one of the passed `candidates`, maximising the Borda score with `m = len(candidates)`, ties to the smallest name |
| Voting.HappinessLevel | voting.py:41 | a level lies in 1..`len(pref)`; it equals `len(pref)` exactly when the outcome is the voter's top choice, and 1 exactly when the outcome occurs only in last place |
| Voting.Happiness | voting.py:37-43 | one level per ballot, in ballot order, each `len(pref) - pref.index(outcome)` |
| Voting.HappinessAtRank | voting.py:41 | on a ballot without repeats, the candidate ranked `i` gives happiness `len(pref) - i` |
| Voting.HappinessIsBordaPlusOne | voting.py:41 | on a full ballot without repeats, happiness is one more than the Borda points that ballot gives the outcome |
| Permute.Permutations | collusion.py:20 | `itertools.permutations(ballot)`: for each position in turn, that element followed by every arrangement of the others |
| Permute.PermutationsFirst | collusion.py:20 | the first ballot tried is the sincere ballot itself |
| Permute.PermutationsCount | collusion.py:20 | `permutations(ballot)` yields `len(ballot)!` ballots, repeats counted |
| Permute.PermutationsSound | collusion.py:20 | every ballot tried is a rearrangement of the original |
| Permute.PermutationsComplete | collusion.py:20 | every rearrangement of the original is tried |
| Collusion.GroupSum | collusion.py:36-37 | the sum of the members' levels, a member listed twice counted twice |
| Collusion.AnyoneUnhappy | collusion.py:43 | some member's level is below their sincere level |
| Collusion.Accepted | collusion.py:38-45 | the leaf test: the group sum strictly rises and no member is less happy |
| Collusion.GroupSumGain | collusion.py:36-45 | when no member loses, the group sum cannot fall, and it rises exactly when some member gains |
| Collusion.AcceptedIsParetoGain | collusion.py:36-45 | an option set is accepted if and only if no member loses and at least one member gains |
| Collusion.OptionSet | collusion.py:48 | one option per group member, in group order |
| Collusion.Leaves | collusion.py:18-51 | every matrix the search evaluates has one ballot per voter |
| Collusion.Recorded | collusion.py:30-48 | at most one option set per evaluated matrix, each with one option per member |
| Collusion.StrategicOptionsForGroupRek | collusion.py:15-56 | on return the matrix equals its value on entry, and the options are those recorded, in search order, over the Cartesian product of the members' permutations from `depth` on |
| Collusion.StrategicOptionsForGroup | collusion.py:9-12 | the matrix is unchanged on return, and the sincere levels used throughout are those of the unmodified matrix, computed once |
| Collusion.GroupOptions | collusion.py:9-12 | every recorded option set has exactly `len(collusion_group)` options |
| Collusion.RecordedDistributes | collusion.py:51 | extending the option list by a deeper call's result equals recording over the concatenated leaves |
| Collusion.RecordedExactly | collusion.py:33-48 | an option set is recorded if and only if some evaluated matrix strictly raises the group sum, leaves no member below their sincere level, and yields that set |
| Collusion.RecordedImproves | collusion.py:36-48 | every recorded option carries its member's sincere level and a level no lower, plus the sincere group sum and a strictly higher group sum |
| Collusion.LeavesRearrange | collusion.py:19-28 | every evaluated matrix only rearranges the members' ballots; every other voter's ballot is untouched |
| Collusion.LeavesCount | collusion.py:19-30 | the leaf is reached once per combination: the product of `len(b)!` over the members' ballots `b` |
| Collusion.LeavesComplete | collusion.py:19-51 | every combination of rearranged member ballots is evaluated |
| Collusion.Sum | collusion.py:72 | `sum(happiness_levels)` |
| Collusion.SumIsGroupSumOfAll | collusion.py:72 | the overall happiness equals the group sum over all voters, each taken once |
| Collusion.NumStrategicOptions | collusion.py:75-80 | each group adds its size times its number of recorded option sets |
| Collusion.NumStrategicOptionsZero | collusion.py:75-80 | the count is never negative, and it is zero exactly when no group recorded an option set |
| Collusion.Column | collusion.py:83-85 | member `k`'s column has one option per recorded set, and is empty when no set was recorded |
| Collusion.AddColumns | collusion.py:84-85 | storing the columns adds exactly the group's members as keys |
| Collusion.OptionsByVoter | collusion.py:77-85 | after all groups, `strategic_options_dict` holds exactly the voters listed in some group |
| Collusion.Report | collusion.py:67-89 | `voters` and the sincere levels have one entry per voter |
| Collusion.Reports | collusion.py:65-92 | the result has exactly one entry per scheme name |
| Collusion.CollusionTvaResult | collusion.py:58-92 | the matrix is unchanged on return, and the result holds, per scheme, the sincere outcome and levels, their sum, each voter's options and the risk of `num_strategic_options` |
| Collusion.OptionsByVoterLast | collusion.py:84-85 | a voter's dict entry is the column stored at the last place that voter is listed; later groups overwrite earlier ones |
| Collusion.ReportVoter | collusion.py:88 | `voters[v]` is member `k`'s column of group `g`'s options, when that is the last place `v` is listed |
| Collusion.PartitionVoters | collusion.py:84-88 | when the groups partition the voters, each voter's entry is the column of that voter's own group |
| Collusion.ReportedOptionsImprove | collusion.py:67-88 | every option reported for voter `v` carries `v`'s sincere level and a level no lower, and a group sum strictly above the sincere one |
| Runoff.Head | main.py:24 | `result[:runoff_elections]`: a prefix of `result` of length `min(R, len(result))` |
| Runoff.KeepOnly | main.py:22-25 | a rewritten ballot holds exactly the ballot's candidates that are among the top `R`, and is no longer than the ballot |
| Runoff.KeepOnlySubsequence | main.py:22-25 | a rewritten ballot is a subsequence of the original, keeping the voter's relative order |
| Runoff.KeepOnlyIdempotent | main.py:26 | rewriting a rewritten ballot changes nothing |
| Runoff.KeepOnlyLength | main.py:22-26 | when the ballot and `result` both list every candidate once, the rewritten ballot has `min(R, m)` candidates |
| Runoff.WriteBackFiltered | main.py:26 | writing the filtered ballot at `index(pref)`, the first equal row, filters the current row and changes no other row's outcome |
| Runoff.TruncateBallots | main.py:18-26 | nothing changes unless `runoff_elections > 1`; otherwise every row becomes its original ballot filtered to `result[:runoff_elections]`, and the number of voters is unchanged |

## Left out

- **Inputs and outputs.** Argument parsing, CSV reading, JSON writing and the
  experiment and plotting scripts are out of scope. They are I/O, not logic.
- **Helpers voting.py does not define.** `get_vote_result`,
  `get_strategic_voting_risk` and `get_basic_tva_result` are imported from
  `voting` (collusion.py:6, main.py:3), but voting.py does not define them, so
  their bodies are not part of this model.
  - The first two are parameters. `get_vote_result` is modelled as a pure,
    total, deterministic function that returns one level per voter. A
    version that raises, depends on anything besides its arguments, or
    mutates the matrix is not covered. The "matrix unchanged" clauses and
    `Collusion.ReportedOptionsImprove` depend on this (see above). Whether it
    scores happiness against the tried ballots or against the sincere ones
    is left open.
  - The runoff loop takes the first-round order `result` as a parameter.
  - The second `get_basic_tva_result` call in main.py (lines 28-29) is left out.
- **Happiness type.** Happiness levels are integers, as at voting.py:41;
  `get_vote_result`'s values are only added and compared. The risk value is an
  uninterpreted `real`.
- **Exceptions become preconditions.** Where the Python code raises, the model
  requires the input that avoids the raise:
  - IndexError from `preferences[0]` on an empty matrix: `|prefs| > 0`;
  - IndexError from `pref[0]`, `pref[1]` or `pref[-1]` on a short ballot
    (for instance schemes.py:24, voting.py:10):
    `Scoring.NonEmptyBallots`, `Scoring.BallotsOfTwo`;
  - KeyError from `scores[candidate] += …` in Borda (schemes.py:43,
    schemes/__init__.py:41, voting.py:33) for a ballot name missing from the
    candidate list: `Scoring.AllListed`;
  - IndexError from `outcome[0]` when nothing was scored: `|candidates| > 0`
    and `|prefs[0]| > 0`;
  - ValueError from `pref.index(outcome)` (voting.py:41):
    `Voting.OnEveryBallot`;
  - IndexError from an empty group or an out-of-range voter index
    (collusion.py:9-12, 19): `Collusion.ValidGroup`;
  - KeyError from `strategic_options_dict[voter]` at collusion.py:88 for a
    voter in no group: `Collusion.Covers`. These two are raised only inside
    the loop over schemes; see the `Collusion.CollusionTvaResult` line
    below for the empty `schemes` case;
  - IndexError from `system_preferences[0]` at collusion.py:63:
    `sys.Length > 0`.
- Collusion.Reports: returns a `map`, so the insertion order of the scheme
  names in the Python dict is not kept.
- Collusion.CollusionTvaResult: like `Collusion.Reports`, it requires
  `ValidGroups` and `Covers` even when `schemes` is empty. For an empty
  `schemes`, the Python loop at collusion.py:66 never runs, nothing is raised
  on invalid groups, and the result is `{}`. The model does not cover
  invalid groups in that case. It still needs `|prefs| > 0`, because
  collusion.py:63 reads `system_preferences[0]` before the loop.
- **Unused parameters.** The parameters `full_outcome`, `runoff` and
  `real_prefs` of `get_strategic_options_for_group_rek` are never read, so they
  are not modelled. Their mutable defaults are not modelled either.
- **Python object identity.** Two behaviours rest on Python lists being shared
  references. Dafny sequences are values, so the model does not show them:
  - the restore at collusion.py:54 puts back the very same list object;
  - a recorded option would see later mutation of `voter_prefs`, but the code
    never mutates it.

  The same value semantics is why no voting rule can modify its `preferences`
  argument.
- **Negative voter indices.** Group members are non-negative indices below the
  number of voters. Python would also accept negative indices, counted from
  the end.
- **pandas.** The `DataFrame` at collusion.py:83-85 is modelled as column
  extraction. Its `shape[1] > 0` test is modelled as "no recorded sets gives an
  empty column", which is what it yields.
- Collusion.Report: does not state the value of `strategic_voting_risk`
  beyond passing `num_strategic_options`, the number of groups and
  `len(preferences[0])` to the risk parameter, because the risk formula is not
  part of this model.
- Voting.HappinessLevel: states the "equals 1" case as "the outcome occurs
  nowhere but last". On a ballot with repeats, the last position alone does
  not decide it; on a ballot without repeats, `Voting.HappinessAtRank` gives
  the exact level for every position.
