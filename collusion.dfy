/** collusion.py: the coalition search. For one group of voters it tries every
    combination of rearranged ballots of the members, overwriting their rows of
    the preference matrix in place and restoring them on the way back, and
    records the combinations that raise the group's happiness sum without
    making any member less happy. The aggregator runs the search for every
    group and every scheme and regroups the recorded options per voter.

    `get_vote_result` and `get_strategic_voting_risk` are not part of this
    model: they are parameters, the first one known only to return one
    happiness level per voter. */
module Collusion {
  import opened Names
  import opened Permute

  /** The four rules a scheme name can stand for. Their outcomes are modelled
      in the modules Schemes, SchemesPackage and Voting; the search here sees
      a rule only through the `get_vote_result` parameter, and the dispatch
      from a scheme name to its rule is not part of this model. */
  datatype Scheme = Plurality | VotingForTwo | AntiPlurality | Borda

  /** What `get_vote_result` returns: the outcome and one happiness level per voter. */
  datatype VoteResult = VoteResult(outcome: Candidate, levels: seq<int>)

  type VoteResultFn = (seq<Ballot>, Scheme) -> VoteResult

  /** `get_strategic_voting_risk(num_strategic_options, num_groups, num_candidates)`. */
  type RiskFn = (int, int, int) -> real

  ghost predicate OneLevelPerVoter(getVoteResult: VoteResultFn)
  {
    forall prefs, scheme :: |getVoteResult(prefs, scheme).levels| == |prefs|
  }

  /** The record `VotingOption` of tva_types.py. */
  datatype VotingOption = VotingOption(
    modifiedPreferenceList: Ballot,
    votingOutcome: Candidate,
    voterHappiness: int,
    trueVoterHappiness: int,
    overallHappiness: int,
    trueOverallHappiness: int)

  /** Every member of `group` is a voter index below `n`. */
  predicate Indices(group: seq<nat>, n: nat)
  {
    forall k :: 0 <= k < |group| ==> group[k] < n
  }

  /** A group the search can run on: `collusion_group[0]` must exist. */
  predicate ValidGroup(group: seq<nat>, n: nat)
  {
    |group| > 0 && Indices(group, n)
  }

  /** `sum(levels[v] for v in group)`, a member listed twice counted twice. */
  function GroupSum(levels: seq<int>, group: seq<nat>): int
    requires Indices(group, |levels|)
  {
    if group == [] then 0
    else GroupSum(levels, group[..|group| - 1]) + levels[group[|group| - 1]]
  }

  predicate AnyoneUnhappy(levels: seq<int>, trueLevels: seq<int>, group: seq<nat>)
    requires Indices(group, |levels|) && Indices(group, |trueLevels|)
  {
    exists k :: 0 <= k < |group| && levels[group[k]] < trueLevels[group[k]]
  }

  /** The leaf test: the group's sum strictly rises and no member loses. */
  predicate Accepted(levels: seq<int>, trueLevels: seq<int>, group: seq<nat>)
    requires Indices(group, |levels|) && Indices(group, |trueLevels|)
  {
    GroupSum(levels, group) > GroupSum(trueLevels, group) && !AnyoneUnhappy(levels, trueLevels, group)
  }

  /** With every member at least as happy, the sum can only rise, and it
      rises exactly when some member gains. */
  lemma {:induction false} GroupSumGain(levels: seq<int>, trueLevels: seq<int>, group: seq<nat>)
    requires Indices(group, |levels|) && Indices(group, |trueLevels|)
    requires !AnyoneUnhappy(levels, trueLevels, group)
    ensures GroupSum(levels, group) >= GroupSum(trueLevels, group)
    ensures GroupSum(levels, group) > GroupSum(trueLevels, group)
      <==> exists k :: 0 <= k < |group| && levels[group[k]] > trueLevels[group[k]]
  {
    if group != [] {
      var init := group[..|group| - 1];
      var v := group[|group| - 1];
      assert forall k :: 0 <= k < |init| ==> init[k] == group[k];
      GroupSumGain(levels, trueLevels, init);
      assert levels[v] >= trueLevels[v] by {
        assert group[|group| - 1] == v;
      }
      if exists k :: 0 <= k < |group| && levels[group[k]] > trueLevels[group[k]] {
        var k :| 0 <= k < |group| && levels[group[k]] > trueLevels[group[k]];
        if k < |init| {
          assert init[k] == group[k];
        }
      }
    }
  }

  /** The leaf test is a Pareto gain for the group: nobody loses and at
      least one member gains. */
  lemma AcceptedIsParetoGain(levels: seq<int>, trueLevels: seq<int>, group: seq<nat>)
    requires Indices(group, |levels|) && Indices(group, |trueLevels|)
    ensures Accepted(levels, trueLevels, group)
      <==> (!AnyoneUnhappy(levels, trueLevels, group)
            && exists k :: 0 <= k < |group| && levels[group[k]] > trueLevels[group[k]])
  {
    if !AnyoneUnhappy(levels, trueLevels, group) {
      GroupSumGain(levels, trueLevels, group);
    }
  }

  /** The options recorded for one accepted combination, one per member in
      group order. Every one carries `ballot`, the ballot tried for the last
      member, since the leaf reads the loop variable of the deepest level. */
  function OptionSet(ballot: Ballot, result: VoteResult, trueLevels: seq<int>, group: seq<nat>): (r: seq<VotingOption>)
    requires Indices(group, |result.levels|) && Indices(group, |trueLevels|)
    ensures |r| == |group|
  {
    var groupHappiness := GroupSum(result.levels, group);
    var trueGroupHappiness := GroupSum(trueLevels, group);
    seq(|group|, k requires 0 <= k < |group| =>
      VotingOption(ballot, result.outcome, result.levels[group[k]], trueLevels[group[k]], groupHappiness, trueGroupHappiness))
  }

  /** The matrices the search evaluates, in the order it reaches them, when it
      starts at `depth` on `prefs`: member `group[depth]`'s row runs through
      the permutations of its current ballot, and each choice is extended by
      the deeper members' choices. */
  function Leaves(prefs: seq<Ballot>, group: seq<nat>, depth: nat): (r: seq<seq<Ballot>>)
    requires depth < |group| && Indices(group, |prefs|)
    ensures forall i :: 0 <= i < |r| ==> |r[i]| == |prefs|
    decreases |group| - depth, 1
  {
    Expand(prefs, group, depth, Permutations(prefs[group[depth]]))
  }

  /** The leaves reached from the permutations `perms` of member `group[depth]`. */
  function Expand(prefs: seq<Ballot>, group: seq<nat>, depth: nat, perms: seq<Ballot>): (r: seq<seq<Ballot>>)
    requires depth < |group| && Indices(group, |prefs|)
    ensures forall i :: 0 <= i < |r| ==> |r[i]| == |prefs|
    decreases |group| - depth, 0, |perms|
  {
    if perms == [] then []
    else Expand(prefs, group, depth, perms[..|perms| - 1]) + Branch(prefs, group, depth, perms[|perms| - 1])
  }

  /** The leaves reached once member `group[depth]` has chosen `p`. */
  function Branch(prefs: seq<Ballot>, group: seq<nat>, depth: nat, p: Ballot): (r: seq<seq<Ballot>>)
    requires depth < |group| && Indices(group, |prefs|)
    ensures forall i :: 0 <= i < |r| ==> |r[i]| == |prefs|
    decreases |group| - depth, 0, 0
  {
    var trial := prefs[group[depth] := p];
    if depth == |group| - 1 then [trial] else Leaves(trial, group, depth + 1)
  }

  /** The option sets recorded over `leaves`, in order. */
  function Recorded(leaves: seq<seq<Ballot>>, trueLevels: seq<int>, scheme: Scheme, group: seq<nat>, getVoteResult: VoteResultFn): (r: seq<seq<VotingOption>>)
    requires OneLevelPerVoter(getVoteResult) && ValidGroup(group, |trueLevels|)
    requires forall i :: 0 <= i < |leaves| ==> |leaves[i]| == |trueLevels|
    ensures |r| <= |leaves|
    ensures forall i :: 0 <= i < |r| ==> |r[i]| == |group|
  {
    if leaves == [] then []
    else
      var prev := Recorded(leaves[..|leaves| - 1], trueLevels, scheme, group, getVoteResult);
      var leaf := leaves[|leaves| - 1];
      var result := getVoteResult(leaf, scheme);
      if Accepted(result.levels, trueLevels, group)
      then prev + [OptionSet(leaf[group[|group| - 1]], result, trueLevels, group)]
      else prev
  }

  /** The search one level down: tries every permutation of member
      `group[depth]`'s ballot in place and returns the options recorded below;
      the matrix is as it was on entry when it returns. */
  method StrategicOptionsForGroupRek(sys: array<Ballot>, trueLevels: seq<int>, scheme: Scheme, group: seq<nat>, depth: nat, getVoteResult: VoteResultFn)
    returns (options: seq<seq<VotingOption>>)
    requires OneLevelPerVoter(getVoteResult)
    requires depth < |group| && ValidGroup(group, sys.Length) && |trueLevels| == sys.Length
    modifies sys
    ensures sys[..] == old(sys[..])
    ensures options == Recorded(Leaves(old(sys[..]), group, depth), trueLevels, scheme, group, getVoteResult)
    decreases |group| - depth
  {
    ghost var start := sys[..];
    var voterIndex := group[depth];
    var voterOriginalPrefs := sys[voterIndex];
    var voterPrefPermutations := Permutations(voterOriginalPrefs);
    options := [];
    for i := 0 to |voterPrefPermutations|
      invariant sys[..] == start[voterIndex := sys[voterIndex]]
      invariant options == Recorded(Expand(start, group, depth, voterPrefPermutations[..i]), trueLevels, scheme, group, getVoteResult)
    {
      var voterPrefs := voterPrefPermutations[i];
      sys[voterIndex] := voterPrefs;
      assert sys[..] == start[voterIndex := voterPrefs];
      ExpandStep(start, trueLevels, scheme, group, depth, voterPrefPermutations, i, getVoteResult);
      if depth == |group| - 1 {
        var result := getVoteResult(sys[..], scheme);
        var groupHappiness := GroupSum(result.levels, group);
        var trueGroupHappiness := GroupSum(trueLevels, group);
        var betterOverall := groupHappiness > trueGroupHappiness;
        if betterOverall {
          var anyoneUnhappy := AnyoneUnhappy(result.levels, trueLevels, group);
          if !anyoneUnhappy {
            options := options + [OptionSet(voterPrefs, result, trueLevels, group)];
          }
        }
      } else {
        var deeper := StrategicOptionsForGroupRek(sys, trueLevels, scheme, group, depth + 1, getVoteResult);
        options := options + deeper;
      }
    }
    sys[voterIndex] := voterOriginalPrefs;
    assert voterPrefPermutations[..|voterPrefPermutations|] == voterPrefPermutations;
  }

  /** One turn of the search loop: the options recorded after trying
      `perms[i]` extend those recorded before it by the ones of its branch,
      and at the last member the branch is the single trial matrix. */
  lemma ExpandStep(prefs: seq<Ballot>, trueLevels: seq<int>, scheme: Scheme, group: seq<nat>, depth: nat, perms: seq<Ballot>, i: nat, getVoteResult: VoteResultFn)
    requires OneLevelPerVoter(getVoteResult)
    requires depth < |group| && ValidGroup(group, |prefs|) && |trueLevels| == |prefs| && i < |perms|
    ensures var trial := prefs[group[depth] := perms[i]];
      var result := getVoteResult(trial, scheme);
      && Recorded(Expand(prefs, group, depth, perms[..i + 1]), trueLevels, scheme, group, getVoteResult)
         == Recorded(Expand(prefs, group, depth, perms[..i]), trueLevels, scheme, group, getVoteResult)
            + Recorded(Branch(prefs, group, depth, perms[i]), trueLevels, scheme, group, getVoteResult)
      && (depth == |group| - 1 ==>
            Recorded(Branch(prefs, group, depth, perms[i]), trueLevels, scheme, group, getVoteResult)
            == if Accepted(result.levels, trueLevels, group)
               then [OptionSet(perms[i], result, trueLevels, group)] else [])
  {
    assert perms[..i + 1][..i] == perms[..i];
    RecordedDistributes(Expand(prefs, group, depth, perms[..i]), Branch(prefs, group, depth, perms[i]), trueLevels, scheme, group, getVoteResult);
    if depth == |group| - 1 {
      var trial := prefs[group[depth] := perms[i]];
      assert Branch(prefs, group, depth, perms[i]) == [trial];
      assert [trial][..0] == [];
    }
  }

  /** The options the search finds for one group, against the sincere levels
      of the unmodified matrix, computed once before any row is overwritten. */
  function GroupOptions(prefs: seq<Ballot>, scheme: Scheme, group: seq<nat>, getVoteResult: VoteResultFn): (r: seq<seq<VotingOption>>)
    requires OneLevelPerVoter(getVoteResult) && ValidGroup(group, |prefs|)
    ensures forall i :: 0 <= i < |r| ==> |r[i]| == |group|
  {
    Recorded(Leaves(prefs, group, 0), getVoteResult(prefs, scheme).levels, scheme, group, getVoteResult)
  }

  method StrategicOptionsForGroup(sys: array<Ballot>, scheme: Scheme, group: seq<nat>, getVoteResult: VoteResultFn)
    returns (options: seq<seq<VotingOption>>)
    requires OneLevelPerVoter(getVoteResult) && ValidGroup(group, sys.Length)
    modifies sys
    ensures sys[..] == old(sys[..])
    ensures options == GroupOptions(old(sys[..]), scheme, group, getVoteResult)
  {
    var trueResult := getVoteResult(sys[..], scheme);
    options := StrategicOptionsForGroupRek(sys, trueResult.levels, scheme, group, 0, getVoteResult);
  }

  /** Recording over two runs of leaves is recording over each in turn. */
  lemma {:induction false} RecordedDistributes(a: seq<seq<Ballot>>, b: seq<seq<Ballot>>, trueLevels: seq<int>, scheme: Scheme, group: seq<nat>, getVoteResult: VoteResultFn)
    requires OneLevelPerVoter(getVoteResult) && ValidGroup(group, |trueLevels|)
    requires forall i :: 0 <= i < |a| ==> |a[i]| == |trueLevels|
    requires forall i :: 0 <= i < |b| ==> |b[i]| == |trueLevels|
    ensures Recorded(a + b, trueLevels, scheme, group, getVoteResult)
      == Recorded(a, trueLevels, scheme, group, getVoteResult) + Recorded(b, trueLevels, scheme, group, getVoteResult)
    decreases |b|
  {
    if b == [] {
      assert a + b == a;
    } else {
      var init := b[..|b| - 1];
      assert (a + b)[..|a + b| - 1] == a + init;
      RecordedDistributes(a, init, trueLevels, scheme, group, getVoteResult);
    }
  }

  /** `o` is the option set the search records for the matrix `leaf`. */
  predicate RecordsFrom(o: seq<VotingOption>, leaf: seq<Ballot>, trueLevels: seq<int>, scheme: Scheme, group: seq<nat>, getVoteResult: VoteResultFn)
    requires OneLevelPerVoter(getVoteResult) && ValidGroup(group, |trueLevels|) && |leaf| == |trueLevels|
  {
    var result := getVoteResult(leaf, scheme);
    Accepted(result.levels, trueLevels, group) && o == OptionSet(leaf[group[|group| - 1]], result, trueLevels, group)
  }

  /** An option set is recorded exactly when some evaluated matrix passes
      both leaf tests and yields it. */
  lemma {:induction false} RecordedExactly(leaves: seq<seq<Ballot>>, trueLevels: seq<int>, scheme: Scheme, group: seq<nat>, getVoteResult: VoteResultFn)
    requires OneLevelPerVoter(getVoteResult) && ValidGroup(group, |trueLevels|)
    requires forall i :: 0 <= i < |leaves| ==> |leaves[i]| == |trueLevels|
    ensures forall o :: o in Recorded(leaves, trueLevels, scheme, group, getVoteResult) <==>
      exists j :: 0 <= j < |leaves| && RecordsFrom(o, leaves[j], trueLevels, scheme, group, getVoteResult)
    decreases |leaves|
  {
    if leaves != [] {
      var init := leaves[..|leaves| - 1];
      RecordedExactly(init, trueLevels, scheme, group, getVoteResult);
      assert forall j :: 0 <= j < |init| ==> init[j] == leaves[j];
      var last := |leaves| - 1;
      forall o | exists j :: 0 <= j < |leaves| && RecordsFrom(o, leaves[j], trueLevels, scheme, group, getVoteResult)
        ensures o in Recorded(leaves, trueLevels, scheme, group, getVoteResult)
      {
        var j :| 0 <= j < |leaves| && RecordsFrom(o, leaves[j], trueLevels, scheme, group, getVoteResult);
        if j < last {
          assert RecordsFrom(o, init[j], trueLevels, scheme, group, getVoteResult);
        }
      }
    }
  }

  /** `o` carries the member's sincere level `trueLevel` and a level no
      lower, and the sincere group sum and a strictly higher one. */
  predicate Improves(o: VotingOption, trueLevel: int, trueGroupSum: int)
  {
    && o.trueVoterHappiness == trueLevel && o.voterHappiness >= trueLevel
    && o.trueOverallHappiness == trueGroupSum && o.overallHappiness > trueGroupSum
  }

  /** Every recorded option leaves its member no less happy than sincere
      voting and carries a group sum strictly above the sincere one. */
  lemma RecordedImproves(leaves: seq<seq<Ballot>>, trueLevels: seq<int>, scheme: Scheme, group: seq<nat>, getVoteResult: VoteResultFn)
    requires OneLevelPerVoter(getVoteResult) && ValidGroup(group, |trueLevels|)
    requires forall i :: 0 <= i < |leaves| ==> |leaves[i]| == |trueLevels|
    ensures var r := Recorded(leaves, trueLevels, scheme, group, getVoteResult);
      forall i, k :: 0 <= i < |r| && 0 <= k < |group| ==>
        Improves(r[i][k], trueLevels[group[k]], GroupSum(trueLevels, group))
  {
    var r := Recorded(leaves, trueLevels, scheme, group, getVoteResult);
    RecordedExactly(leaves, trueLevels, scheme, group, getVoteResult);
    forall i, k | 0 <= i < |r| && 0 <= k < |group|
      ensures Improves(r[i][k], trueLevels[group[k]], GroupSum(trueLevels, group))
    {
      assert r[i] in r;
      var j :| 0 <= j < |leaves| && RecordsFrom(r[i], leaves[j], trueLevels, scheme, group, getVoteResult);
      var levels := getVoteResult(leaves[j], scheme).levels;
      assert !(levels[group[k]] < trueLevels[group[k]]);
    }
  }

  /** `leaf` differs from `prefs` only in the rows of members from `depth` on,
      and each of its rows is a rearrangement of the same row of `prefs`. */
  predicate Rearranged(prefs: seq<Ballot>, leaf: seq<Ballot>, group: seq<nat>, depth: nat)
    requires depth <= |group|
  {
    && |leaf| == |prefs|
    && (forall v :: 0 <= v < |prefs| && v !in group[depth..] ==> leaf[v] == prefs[v])
    && (forall v :: 0 <= v < |prefs| ==> multiset(leaf[v]) == multiset(prefs[v]))
  }

  /** Every matrix the search evaluates only rearranges the ballots of the
      group's members and leaves every other voter's ballot as it was. */
  lemma {:induction false} LeavesRearrange(prefs: seq<Ballot>, group: seq<nat>, depth: nat)
    requires depth < |group| && Indices(group, |prefs|)
    ensures forall l :: l in Leaves(prefs, group, depth) ==> Rearranged(prefs, l, group, depth)
    decreases |group| - depth, 1
  {
    var perms := Permutations(prefs[group[depth]]);
    PermutationsSound(prefs[group[depth]]);
    assert forall i :: 0 <= i < |perms| ==> perms[i] in perms;
    ExpandRearrange(prefs, group, depth, perms);
  }

  lemma {:induction false} ExpandRearrange(prefs: seq<Ballot>, group: seq<nat>, depth: nat, perms: seq<Ballot>)
    requires depth < |group| && Indices(group, |prefs|)
    requires forall i :: 0 <= i < |perms| ==> multiset(perms[i]) == multiset(prefs[group[depth]])
    ensures forall l :: l in Expand(prefs, group, depth, perms) ==> Rearranged(prefs, l, group, depth)
    decreases |group| - depth, 0, |perms|
  {
    if perms != [] {
      ExpandRearrange(prefs, group, depth, perms[..|perms| - 1]);
      BranchRearrange(prefs, group, depth, perms[|perms| - 1]);
    }
  }

  lemma {:induction false} BranchRearrange(prefs: seq<Ballot>, group: seq<nat>, depth: nat, p: Ballot)
    requires depth < |group| && Indices(group, |prefs|)
    requires multiset(p) == multiset(prefs[group[depth]])
    ensures forall l :: l in Branch(prefs, group, depth, p) ==> Rearranged(prefs, l, group, depth)
    decreases |group| - depth, 0, 0
  {
    var trial := prefs[group[depth] := p];
    assert group[depth..] == [group[depth]] + group[depth + 1..];
    if depth < |group| - 1 {
      LeavesRearrange(trial, group, depth + 1);
    }
  }

  /** The number of combinations at and below `depth`: the product of the
      factorials of the members' ballot lengths. */
  function Combinations(prefs: seq<Ballot>, group: seq<nat>, depth: nat): nat
    requires depth <= |group| && Indices(group, |prefs|)
    decreases |group| - depth
  {
    if depth == |group| then 1 else Fact(|prefs[group[depth]]|) * Combinations(prefs, group, depth + 1)
  }

  lemma {:induction false} CombinationsByLength(p: seq<Ballot>, q: seq<Ballot>, group: seq<nat>, depth: nat)
    requires depth <= |group| && |p| == |q| && Indices(group, |p|)
    requires forall v :: 0 <= v < |p| ==> |p[v]| == |q[v]|
    ensures Combinations(p, group, depth) == Combinations(q, group, depth)
    decreases |group| - depth
  {
    if depth < |group| {
      CombinationsByLength(p, q, group, depth + 1);
    }
  }

  /** The leaf is reached once per element of the Cartesian product of the
      members' permutations: `len(b)!` choices for each member's ballot `b`. */
  lemma {:induction false} LeavesCount(prefs: seq<Ballot>, group: seq<nat>, depth: nat)
    requires depth < |group| && Indices(group, |prefs|)
    ensures |Leaves(prefs, group, depth)| == Combinations(prefs, group, depth)
    decreases |group| - depth, 1
  {
    var b := prefs[group[depth]];
    var perms := Permutations(b);
    PermutationsCount(b);
    forall i | 0 <= i < |perms| ensures |perms[i]| == |b| {
      PermutationLength(b, perms[i]);
    }
    ExpandCount(prefs, group, depth, perms);
  }

  lemma {:induction false} ExpandCount(prefs: seq<Ballot>, group: seq<nat>, depth: nat, perms: seq<Ballot>)
    requires depth < |group| && Indices(group, |prefs|)
    requires forall i :: 0 <= i < |perms| ==> |perms[i]| == |prefs[group[depth]]|
    ensures |Expand(prefs, group, depth, perms)| == |perms| * Combinations(prefs, group, depth + 1)
    decreases |group| - depth, 0, |perms|
  {
    if perms != [] {
      ExpandCount(prefs, group, depth, perms[..|perms| - 1]);
      BranchCount(prefs, group, depth, perms[|perms| - 1]);
      var c := Combinations(prefs, group, depth + 1);
      assert |perms| * c == (|perms| - 1) * c + c;
    }
  }

  lemma {:induction false} BranchCount(prefs: seq<Ballot>, group: seq<nat>, depth: nat, p: Ballot)
    requires depth < |group| && Indices(group, |prefs|)
    requires |p| == |prefs[group[depth]]|
    ensures |Branch(prefs, group, depth, p)| == Combinations(prefs, group, depth + 1)
    decreases |group| - depth, 0, 0
  {
    if depth < |group| - 1 {
      var trial := prefs[group[depth] := p];
      LeavesCount(trial, group, depth + 1);
      CombinationsByLength(trial, prefs, group, depth + 1);
    }
  }

  /** Every combination of rearranged member ballots is evaluated: the
      search misses no element of the Cartesian product. */
  lemma {:induction false} LeavesComplete(prefs: seq<Ballot>, group: seq<nat>, depth: nat, leaf: seq<Ballot>)
    requires depth < |group| && Indices(group, |prefs|)
    requires Rearranged(prefs, leaf, group, depth)
    ensures leaf in Leaves(prefs, group, depth)
    decreases |group| - depth, 1
  {
    var b := prefs[group[depth]];
    var p := leaf[group[depth]];
    PermutationsComplete(b, p);
    var perms := Permutations(b);
    var j :| 0 <= j < |perms| && perms[j] == p;
    BranchComplete(prefs, group, depth, p, leaf);
    ExpandContains(prefs, group, depth, perms, j, leaf);
  }

  lemma {:induction false} BranchComplete(prefs: seq<Ballot>, group: seq<nat>, depth: nat, p: Ballot, leaf: seq<Ballot>)
    requires depth < |group| && Indices(group, |prefs|)
    requires Rearranged(prefs, leaf, group, depth) && leaf[group[depth]] == p
    ensures leaf in Branch(prefs, group, depth, p)
    decreases |group| - depth, 0
  {
    var trial := prefs[group[depth] := p];
    assert group[depth..] == [group[depth]] + group[depth + 1..];
    if depth == |group| - 1 {
      assert leaf == trial;
    } else {
      LeavesComplete(trial, group, depth + 1, leaf);
    }
  }

  lemma {:induction false} ExpandContains(prefs: seq<Ballot>, group: seq<nat>, depth: nat, perms: seq<Ballot>, j: nat, leaf: seq<Ballot>)
    requires depth < |group| && Indices(group, |prefs|) && j < |perms|
    requires leaf in Branch(prefs, group, depth, perms[j])
    ensures leaf in Expand(prefs, group, depth, perms)
    decreases |perms|
  {
    if j < |perms| - 1 {
      var init := perms[..|perms| - 1];
      assert init[j] == perms[j];
      ExpandContains(prefs, group, depth, init, j, leaf);
    }
  }

  /** Every group is one the search can run on. */
  predicate ValidGroups(groups: seq<seq<nat>>, n: nat)
  {
    forall g :: 0 <= g < |groups| ==> ValidGroup(groups[g], n)
  }

  /** Every voter is in some group: `strategic_options_dict[v]` exists for
      every `v in range(num_voters)` only then. */
  predicate Covers(groups: seq<seq<nat>>, n: nat)
  {
    forall v :: 0 <= v < n ==> Listed(groups, v)
  }

  predicate Listed(groups: seq<seq<nat>>, v: nat)
  {
    exists g :: 0 <= g < |groups| && v in groups[g]
  }

  /** `sum(levels)` */
  function Sum(levels: seq<int>): int
  {
    if levels == [] then 0 else Sum(levels[..|levels| - 1]) + levels[|levels| - 1]
  }

  /** The overall happiness is the group sum over the first `k` voters taken
      once each in index order. */
  lemma {:induction false} SumIsGroupSumOfAll(levels: seq<int>, k: nat)
    requires k <= |levels|
    ensures Indices(seq(k, i => i), |levels|)
    ensures Sum(levels[..k]) == GroupSum(levels, seq(k, i => i))
  {
    var all := seq(k, i => i);
    if k > 0 {
      assert all[..k - 1] == seq(k - 1, i => i);
      assert levels[..k][..k - 1] == levels[..k - 1];
      SumIsGroupSumOfAll(levels, k - 1);
      assert all[k - 1] == k - 1;
    }
  }

  /** Column `k` of the options frame: member `k`'s option of every set, and
      no options at all when no set was recorded. */
  function Column(options: seq<seq<VotingOption>>, k: nat): (r: seq<VotingOption>)
    requires forall i :: 0 <= i < |options| ==> k < |options[i]|
    ensures |r| == |options|
  {
    seq(|options|, i requires 0 <= i < |options| => options[i][k])
  }

  /** `strategic_options_dict` after the members `group[..k]` have stored
      their columns; a later member listed twice overwrites. */
  function AddColumns(byVoter: map<nat, seq<VotingOption>>, group: seq<nat>, options: seq<seq<VotingOption>>, k: nat)
    : (r: map<nat, seq<VotingOption>>)
    requires k <= |group| && forall i :: 0 <= i < |options| ==> |options[i]| == |group|
    ensures forall v :: v in r <==> v in byVoter || v in group[..k]
  {
    if k == 0 then byVoter
    else
      assert group[..k] == group[..k - 1] + [group[k - 1]];
      AddColumns(byVoter, group, options, k - 1)[group[k - 1] := Column(options, k - 1)]
  }

  /** `strategic_options_dict` after the groups `groups` have been searched:
      it holds exactly the voters listed in some group. */
  function OptionsByVoter(prefs: seq<Ballot>, scheme: Scheme, groups: seq<seq<nat>>, getVoteResult: VoteResultFn)
    : (r: map<nat, seq<VotingOption>>)
    requires OneLevelPerVoter(getVoteResult) && ValidGroups(groups, |prefs|)
    ensures forall v :: v in r <==> Listed(groups, v)
  {
    if groups == [] then map[]
    else
      var init := groups[..|groups| - 1];
      var last := groups[|groups| - 1];
      assert forall g :: 0 <= g < |init| ==> init[g] == groups[g];
      assert last[..|last|] == last;
      assert forall v :: Listed(groups, v) <==> Listed(init, v) || v in last;
      AddColumns(OptionsByVoter(prefs, scheme, init, getVoteResult), last, GroupOptions(prefs, scheme, last, getVoteResult), |last|)
  }

  /** `num_strategic_options`: each group adds its size times its number of
      recorded option sets. */
  function NumStrategicOptions(prefs: seq<Ballot>, scheme: Scheme, groups: seq<seq<nat>>, getVoteResult: VoteResultFn): int
    requires OneLevelPerVoter(getVoteResult) && ValidGroups(groups, |prefs|)
  {
    if groups == [] then 0
    else
      var last := groups[|groups| - 1];
      NumStrategicOptions(prefs, scheme, groups[..|groups| - 1], getVoteResult)
        + |last| * |GroupOptions(prefs, scheme, last, getVoteResult)|
  }

  /** No strategic option is counted exactly when no group recorded any
      option set; otherwise the count is positive. */
  lemma {:induction false} NumStrategicOptionsZero(prefs: seq<Ballot>, scheme: Scheme, groups: seq<seq<nat>>, getVoteResult: VoteResultFn)
    requires OneLevelPerVoter(getVoteResult) && ValidGroups(groups, |prefs|)
    ensures NumStrategicOptions(prefs, scheme, groups, getVoteResult) >= 0
    ensures NumStrategicOptions(prefs, scheme, groups, getVoteResult) == 0
      <==> forall g :: 0 <= g < |groups| ==> GroupOptions(prefs, scheme, groups[g], getVoteResult) == []
  {
    if groups != [] {
      var init := groups[..|groups| - 1];
      var last := groups[|groups| - 1];
      assert forall g :: 0 <= g < |init| ==> init[g] == groups[g];
      NumStrategicOptionsZero(prefs, scheme, init, getVoteResult);
      var n := |GroupOptions(prefs, scheme, last, getVoteResult)|;
      assert |last| > 0;
      assert |last| * n >= 0;
      assert |last| * n == 0 <==> n == 0;
    }
  }

  /** The per-scheme result dict. */
  datatype SchemeReport = SchemeReport(
    nonStrategicOutcome: Candidate,
    nonStrategicHappinessLevels: seq<int>,
    nonStrategicOverallHappiness: int,
    voters: seq<seq<VotingOption>>,
    strategicVotingRisk: real)

  /** The result for one scheme on the unmodified matrix `prefs`. */
  function Report(prefs: seq<Ballot>, scheme: Scheme, groups: seq<seq<nat>>, getVoteResult: VoteResultFn, getStrategicVotingRisk: RiskFn)
    : (r: SchemeReport)
    requires |prefs| > 0 && OneLevelPerVoter(getVoteResult)
    requires ValidGroups(groups, |prefs|) && Covers(groups, |prefs|)
    ensures |r.voters| == |prefs| && |r.nonStrategicHappinessLevels| == |prefs|
  {
    var nonStrategic := getVoteResult(prefs, scheme);
    var byVoter := OptionsByVoter(prefs, scheme, groups, getVoteResult);
    SchemeReport(
      nonStrategic.outcome,
      nonStrategic.levels,
      Sum(nonStrategic.levels),
      seq(|prefs|, v requires 0 <= v < |prefs| => byVoter[v]),
      getStrategicVotingRisk(NumStrategicOptions(prefs, scheme, groups, getVoteResult), |groups|, |prefs[0]|))
  }

  /** The result dict over the named schemes; a name given twice keeps its last scheme. */
  function Reports(prefs: seq<Ballot>, schemes: seq<(string, Scheme)>, groups: seq<seq<nat>>, getVoteResult: VoteResultFn, getStrategicVotingRisk: RiskFn)
    : (r: map<string, SchemeReport>)
    requires |prefs| > 0 && OneLevelPerVoter(getVoteResult)
    requires ValidGroups(groups, |prefs|) && Covers(groups, |prefs|)
    ensures forall name :: name in r <==> exists s :: 0 <= s < |schemes| && schemes[s].0 == name
  {
    if schemes == [] then map[]
    else
      var init := schemes[..|schemes| - 1];
      var (name, scheme) := schemes[|schemes| - 1];
      assert forall s :: 0 <= s < |init| ==> init[s] == schemes[s];
      Reports(prefs, init, groups, getVoteResult, getStrategicVotingRisk)[name := Report(prefs, scheme, groups, getVoteResult, getStrategicVotingRisk)]
  }

  /** `get_collusion_tva_result`: for every scheme, the sincere outcome and
      levels, their sum, the options found per voter and the risk. The matrix
      is as it was on entry when it returns. */
  method CollusionTvaResult(sys: array<Ballot>, schemes: seq<(string, Scheme)>, groups: seq<seq<nat>>,
                            getVoteResult: VoteResultFn, getStrategicVotingRisk: RiskFn)
    returns (collusionTvaResult: map<string, SchemeReport>)
    requires sys.Length > 0 && OneLevelPerVoter(getVoteResult)
    requires ValidGroups(groups, sys.Length) && Covers(groups, sys.Length)
    modifies sys
    ensures sys[..] == old(sys[..])
    ensures collusionTvaResult == Reports(old(sys[..]), schemes, groups, getVoteResult, getStrategicVotingRisk)
  {
    ghost var prefs := sys[..];
    var numVoters := sys.Length;
    var numGroups := |groups|;
    var numCandidates := |sys[0]|;
    collusionTvaResult := map[];
    for s := 0 to |schemes|
      invariant sys[..] == prefs
      invariant collusionTvaResult == Reports(prefs, schemes[..s], groups, getVoteResult, getStrategicVotingRisk)
    {
      var (schemeName, scheme) := schemes[s];
      var nonStrategic := getVoteResult(sys[..], scheme);
      var numStrategicOptions := 0;
      var strategicOptionsDict: map<nat, seq<VotingOption>> := map[];
      for g := 0 to numGroups
        invariant sys[..] == prefs
        invariant numStrategicOptions == NumStrategicOptions(prefs, scheme, groups[..g], getVoteResult)
        invariant strategicOptionsDict == OptionsByVoter(prefs, scheme, groups[..g], getVoteResult)
      {
        var collusionGroup := groups[g];
        var groupOptions := StrategicOptionsForGroup(sys, scheme, collusionGroup, getVoteResult);
        numStrategicOptions := numStrategicOptions + |collusionGroup| * |groupOptions|;
        ghost var earlier := strategicOptionsDict;
        for index := 0 to |collusionGroup|
          invariant strategicOptionsDict == AddColumns(earlier, collusionGroup, groupOptions, index)
        {
          strategicOptionsDict := strategicOptionsDict[collusionGroup[index] := Column(groupOptions, index)];
        }
        GroupsStep(prefs, scheme, groups, g, getVoteResult);
      }
      assert groups[..numGroups] == groups;
      var voters := seq(numVoters, v requires 0 <= v < numVoters => strategicOptionsDict[v]);
      var risk := getStrategicVotingRisk(numStrategicOptions, numGroups, numCandidates);
      var schemeResult := SchemeReport(nonStrategic.outcome, nonStrategic.levels, Sum(nonStrategic.levels), voters, risk);
      assert schemeResult == Report(prefs, scheme, groups, getVoteResult, getStrategicVotingRisk);
      SchemesStep(prefs, schemes, groups, s, getVoteResult, getStrategicVotingRisk);
      collusionTvaResult := collusionTvaResult[schemeName := schemeResult];
    }
    assert schemes[..|schemes|] == schemes;
  }

  /** One turn of the group loop: the count and the dict grow by one group. */
  lemma GroupsStep(prefs: seq<Ballot>, scheme: Scheme, groups: seq<seq<nat>>, g: nat, getVoteResult: VoteResultFn)
    requires OneLevelPerVoter(getVoteResult) && ValidGroups(groups, |prefs|) && g < |groups|
    ensures ValidGroups(groups[..g], |prefs|) && ValidGroups(groups[..g + 1], |prefs|)
    ensures NumStrategicOptions(prefs, scheme, groups[..g + 1], getVoteResult)
      == NumStrategicOptions(prefs, scheme, groups[..g], getVoteResult) + |groups[g]| * |GroupOptions(prefs, scheme, groups[g], getVoteResult)|
    ensures OptionsByVoter(prefs, scheme, groups[..g + 1], getVoteResult)
      == AddColumns(OptionsByVoter(prefs, scheme, groups[..g], getVoteResult), groups[g], GroupOptions(prefs, scheme, groups[g], getVoteResult), |groups[g]|)
  {
    assert groups[..g + 1][..g] == groups[..g];
  }

  /** One turn of the scheme loop: the result dict gains one scheme's entry. */
  lemma SchemesStep(prefs: seq<Ballot>, schemes: seq<(string, Scheme)>, groups: seq<seq<nat>>, s: nat,
                    getVoteResult: VoteResultFn, getStrategicVotingRisk: RiskFn)
    requires |prefs| > 0 && OneLevelPerVoter(getVoteResult)
    requires ValidGroups(groups, |prefs|) && Covers(groups, |prefs|) && s < |schemes|
    ensures Reports(prefs, schemes[..s + 1], groups, getVoteResult, getStrategicVotingRisk)
      == Reports(prefs, schemes[..s], groups, getVoteResult, getStrategicVotingRisk)[schemes[s].0 := Report(prefs, schemes[s].1, groups, getVoteResult, getStrategicVotingRisk)]
  {
    assert schemes[..s + 1][..s] == schemes[..s];
  }

  /** Position `k` of group `g` is the last place voter `v` is listed, so the
      column stored there is the one left in the dict. */
  predicate LastListing(groups: seq<seq<nat>>, v: nat, g: nat, k: nat)
  {
    && g < |groups| && k < |groups[g]| && groups[g][k] == v
    && v !in groups[g][k + 1..]
    && forall h :: g < h < |groups| ==> v !in groups[h]
  }

  lemma {:induction false} AddColumnsOutside(byVoter: map<nat, seq<VotingOption>>, group: seq<nat>, options: seq<seq<VotingOption>>, n: nat, v: nat)
    requires n <= |group| && forall i :: 0 <= i < |options| ==> |options[i]| == |group|
    requires v in byVoter && v !in group[..n]
    ensures AddColumns(byVoter, group, options, n)[v] == byVoter[v]
  {
    if n > 0 {
      assert group[..n - 1] <= group[..n];
      AddColumnsOutside(byVoter, group, options, n - 1, v);
    }
  }

  lemma {:induction false} AddColumnsLast(byVoter: map<nat, seq<VotingOption>>, group: seq<nat>, options: seq<seq<VotingOption>>, n: nat, k: nat)
    requires k < n <= |group| && forall i :: 0 <= i < |options| ==> |options[i]| == |group|
    requires group[k] !in group[k + 1..n]
    ensures AddColumns(byVoter, group, options, n)[group[k]] == Column(options, k)
  {
    if k < n - 1 {
      assert group[n - 1] in group[k + 1..n];
      assert group[k + 1..n - 1] <= group[k + 1..n];
      AddColumnsLast(byVoter, group, options, n - 1, k);
    }
  }

  /** `strategic_options_dict[v]` is member `k`'s column of group `g`'s
      options when that is the last place `v` is listed. */
  lemma {:induction false} OptionsByVoterLast(prefs: seq<Ballot>, scheme: Scheme, groups: seq<seq<nat>>, getVoteResult: VoteResultFn, v: nat, g: nat, k: nat)
    requires OneLevelPerVoter(getVoteResult) && ValidGroups(groups, |prefs|)
    requires LastListing(groups, v, g, k)
    ensures v in OptionsByVoter(prefs, scheme, groups, getVoteResult)
    ensures OptionsByVoter(prefs, scheme, groups, getVoteResult)[v] == Column(GroupOptions(prefs, scheme, groups[g], getVoteResult), k)
    decreases |groups|
  {
    var init := groups[..|groups| - 1];
    var last := groups[|groups| - 1];
    assert forall h :: 0 <= h < |init| ==> init[h] == groups[h];
    assert Listed(groups, v);
    var options := GroupOptions(prefs, scheme, last, getVoteResult);
    if g == |groups| - 1 {
      assert last[k + 1..|last|] == last[k + 1..];
      AddColumnsLast(OptionsByVoter(prefs, scheme, init, getVoteResult), last, options, |last|, k);
    } else {
      assert LastListing(init, v, g, k);
      OptionsByVoterLast(prefs, scheme, init, getVoteResult, v, g, k);
      assert v !in last[..|last|];
      AddColumnsOutside(OptionsByVoter(prefs, scheme, init, getVoteResult), last, options, |last|, v);
    }
  }

  /** The entry of voter `v` in `voters` is member `k`'s column of the
      options of group `g`, the last group listing `v` at its last place there. */
  lemma ReportVoter(prefs: seq<Ballot>, scheme: Scheme, groups: seq<seq<nat>>, getVoteResult: VoteResultFn, getStrategicVotingRisk: RiskFn, v: nat, g: nat, k: nat)
    requires |prefs| > 0 && OneLevelPerVoter(getVoteResult)
    requires ValidGroups(groups, |prefs|) && Covers(groups, |prefs|)
    requires LastListing(groups, v, g, k)
    ensures v < |prefs|
    ensures Report(prefs, scheme, groups, getVoteResult, getStrategicVotingRisk).voters[v]
      == Column(GroupOptions(prefs, scheme, groups[g], getVoteResult), k)
  {
    OptionsByVoterLast(prefs, scheme, groups, getVoteResult, v, g, k);
  }

  /** No voter is listed twice, in one group or across groups. */
  predicate ListedOnce(groups: seq<seq<nat>>)
  {
    forall g, k, h, l ::
      (0 <= g < |groups| && 0 <= k < |groups[g]| && 0 <= h < |groups| && 0 <= l < |groups[h]| && groups[g][k] == groups[h][l])
      ==> g == h && k == l
  }

  /** When the groups partition the voters, each voter's entry is the column
      of that voter's own group. */
  lemma PartitionVoters(prefs: seq<Ballot>, scheme: Scheme, groups: seq<seq<nat>>, getVoteResult: VoteResultFn, getStrategicVotingRisk: RiskFn, g: nat, k: nat)
    requires |prefs| > 0 && OneLevelPerVoter(getVoteResult)
    requires ValidGroups(groups, |prefs|) && Covers(groups, |prefs|) && ListedOnce(groups)
    requires g < |groups| && k < |groups[g]|
    ensures Report(prefs, scheme, groups, getVoteResult, getStrategicVotingRisk).voters[groups[g][k]]
      == Column(GroupOptions(prefs, scheme, groups[g], getVoteResult), k)
  {
    var v := groups[g][k];
    forall h, l | g < h < |groups| && 0 <= l < |groups[h]| ensures groups[h][l] != v {
    }
    var later := groups[g][k + 1..];
    forall l | 0 <= l < |later| ensures later[l] != v {
      assert later[l] == groups[g][k + 1 + l];
    }
    ReportVoter(prefs, scheme, groups, getVoteResult, getStrategicVotingRisk, v, g, k);
  }

  /** Every option in `opts` carries the sincere level `level`, a level no
      lower, and a group sum strictly above the sincere one. */
  predicate BetterForVoter(opts: seq<VotingOption>, level: int)
  {
    forall i :: 0 <= i < |opts| ==>
      && opts[i].trueVoterHappiness == level && opts[i].voterHappiness >= level
      && opts[i].overallHappiness > opts[i].trueOverallHappiness
  }

  lemma GroupColumnsBetter(prefs: seq<Ballot>, scheme: Scheme, group: seq<nat>, getVoteResult: VoteResultFn, k: nat)
    requires OneLevelPerVoter(getVoteResult) && ValidGroup(group, |prefs|) && k < |group|
    ensures BetterForVoter(Column(GroupOptions(prefs, scheme, group, getVoteResult), k), getVoteResult(prefs, scheme).levels[group[k]])
  {
    var trueLevels := getVoteResult(prefs, scheme).levels;
    var options := GroupOptions(prefs, scheme, group, getVoteResult);
    RecordedImproves(Leaves(prefs, group, 0), trueLevels, scheme, group, getVoteResult);
    assert options == Recorded(Leaves(prefs, group, 0), trueLevels, scheme, group, getVoteResult);
    forall i | 0 <= i < |options| ensures Column(options, k)[i] == options[i][k] {
    }
    assert forall i :: 0 <= i < |options| ==> Improves(options[i][k], trueLevels[group[k]], GroupSum(trueLevels, group));
  }

  lemma {:induction false} AddColumnsBetter(byVoter: map<nat, seq<VotingOption>>, prefs: seq<Ballot>, scheme: Scheme, group: seq<nat>, getVoteResult: VoteResultFn, n: nat)
    requires OneLevelPerVoter(getVoteResult) && ValidGroup(group, |prefs|) && n <= |group|
    requires forall v :: v in byVoter ==> v < |prefs| && BetterForVoter(byVoter[v], getVoteResult(prefs, scheme).levels[v])
    ensures var r := AddColumns(byVoter, group, GroupOptions(prefs, scheme, group, getVoteResult), n);
      forall v :: v in r ==> v < |prefs| && BetterForVoter(r[v], getVoteResult(prefs, scheme).levels[v])
  {
    if n > 0 {
      AddColumnsBetter(byVoter, prefs, scheme, group, getVoteResult, n - 1);
      GroupColumnsBetter(prefs, scheme, group, getVoteResult, n - 1);
    }
  }

  lemma {:induction false} OptionsByVoterBetter(prefs: seq<Ballot>, scheme: Scheme, groups: seq<seq<nat>>, getVoteResult: VoteResultFn)
    requires OneLevelPerVoter(getVoteResult) && ValidGroups(groups, |prefs|)
    ensures var r := OptionsByVoter(prefs, scheme, groups, getVoteResult);
      forall v :: v in r ==> v < |prefs| && BetterForVoter(r[v], getVoteResult(prefs, scheme).levels[v])
    decreases |groups|
  {
    if groups != [] {
      var init := groups[..|groups| - 1];
      assert forall h :: 0 <= h < |init| ==> init[h] == groups[h];
      OptionsByVoterBetter(prefs, scheme, init, getVoteResult);
      var last := groups[|groups| - 1];
      AddColumnsBetter(OptionsByVoter(prefs, scheme, init, getVoteResult), prefs, scheme, last, getVoteResult, |last|);
    }
  }

  /** Every option reported for a voter leaves that voter at least as happy
      as the sincere outcome, whose level it carries, and raises the sum of
      the voter's group: no reported option is a loss for its voter. */
  lemma ReportedOptionsImprove(prefs: seq<Ballot>, scheme: Scheme, groups: seq<seq<nat>>, getVoteResult: VoteResultFn, getStrategicVotingRisk: RiskFn)
    requires |prefs| > 0 && OneLevelPerVoter(getVoteResult)
    requires ValidGroups(groups, |prefs|) && Covers(groups, |prefs|)
    ensures var r := Report(prefs, scheme, groups, getVoteResult, getStrategicVotingRisk);
      forall v :: 0 <= v < |prefs| ==> BetterForVoter(r.voters[v], r.nonStrategicHappinessLevels[v])
  {
    OptionsByVoterBetter(prefs, scheme, groups, getVoteResult);
  }
}
