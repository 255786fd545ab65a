/** voting.py: the four rules returning the winner only, with the candidate
    list passed in explicitly, and the position-based happiness metric. */
module Voting {
  import opened Names
  import opened Ranking
  import opened Scoring

  /** Plurality: most first places wins, ties to the smaller name. The winner
      is some voter's first choice. */
  function Plurality(prefs: seq<Ballot>): (w: Candidate)
    requires |prefs| > 0 && NonEmptyBallots(prefs)
    ensures HighestThenSmallest(w, FirstChoices(prefs), VoteCount(FirstChoices(prefs)))
    ensures exists v :: 0 <= v < |prefs| && prefs[v][0] == w
  {
    var votes := FirstChoices(prefs);
    RankByWinner(Dedup(votes), votes, VoteCount(votes));
    var w := PluralityRanking(prefs)[0].name;
    assert w in votes;
    w
  }

  /** Voting for two: first and second places count alike. The winner is
      some voter's first or second choice. */
  function VotingForTwo(prefs: seq<Ballot>): (w: Candidate)
    requires |prefs| > 0 && BallotsOfTwo(prefs)
    ensures HighestThenSmallest(w, TopTwoChoices(prefs), VoteCount(TopTwoChoices(prefs)))
    ensures exists v :: 0 <= v < |prefs| && (prefs[v][0] == w || prefs[v][1] == w)
  {
    var votes := TopTwoChoices(prefs);
    RankByWinner(Dedup(votes), votes, VoteCount(votes));
    var w := VotingForTwoRanking(prefs)[0].name;
    assert w in votes;
    var i :| 0 <= i < |votes| && votes[i] == w;
    assert i < |prefs| ==> prefs[i][0] == w;
    assert i >= |prefs| ==> prefs[i - |prefs|][1] == w;
    w
  }

  /** Anti-plurality over the given candidates only: fewest last places wins,
      ties to the smaller name, and the winner is one of `candidates`. */
  method AntiPlurality(prefs: seq<Ballot>, candidates: seq<Candidate>) returns (w: Candidate)
    requires |candidates| > 0 && NonEmptyBallots(prefs)
    ensures HighestThenSmallest(w, candidates, AntiPluralityScore(prefs))
    ensures w == AntiPluralityRanking(prefs, candidates)[0].name
  {
    var items := TallyAntiPlurality(prefs, candidates);
    var outcome := Rank(items);
    RankByWinner(Dedup(candidates), candidates, AntiPluralityScore(prefs));
    w := outcome[0].name;
  }

  /** Borda with `m = len(candidates)` taken from the parameter. */
  method Borda(prefs: seq<Ballot>, candidates: seq<Candidate>) returns (w: Candidate)
    requires |candidates| > 0 && AllListed(prefs, candidates)
    ensures HighestThenSmallest(w, candidates, BordaPoints(prefs, |candidates|))
    ensures w == BordaRanking(prefs, candidates)[0].name
  {
    var items := TallyBorda(prefs, candidates);
    var outcome := Rank(items);
    RankByWinner(Dedup(candidates), candidates, BordaPoints(prefs, |candidates|));
    w := outcome[0].name;
  }

  /** One voter's happiness: `len(pref) - pref.index(outcome)`. It runs from
      1 (the outcome is the voter's last choice) to the ballot's length (the
      outcome is the voter's first choice). */
  function HappinessLevel(pref: Ballot, outcome: Candidate): (h: int)
    requires outcome in pref
    ensures 1 <= h <= |pref|
    ensures h == |pref| <==> pref[0] == outcome
    ensures h == 1 <==> outcome !in pref[..|pref| - 1]
  {
    var i := IndexOf(pref, outcome);
    assert i < |pref| - 1 ==> pref[..|pref| - 1][i] == outcome;
    assert outcome !in pref[..|pref| - 1] ==> i == |pref| - 1;
    |pref| - i
  }

  /** `pref.index` fails unless the outcome is on every ballot. */
  predicate OnEveryBallot(prefs: seq<Ballot>, outcome: Candidate)
  {
    forall v :: 0 <= v < |prefs| ==> outcome in prefs[v]
  }

  /** One happiness level per ballot, in the ballots' order. */
  method Happiness(prefs: seq<Ballot>, outcome: Candidate) returns (levels: seq<int>)
    requires OnEveryBallot(prefs, outcome)
    ensures |levels| == |prefs|
    ensures forall v :: 0 <= v < |prefs| ==> levels[v] == HappinessLevel(prefs[v], outcome)
  {
    levels := [];
    for v := 0 to |prefs|
      invariant |levels| == v
      invariant forall u :: 0 <= u < v ==> levels[u] == HappinessLevel(prefs[u], outcome)
    {
      var level := |prefs[v]| - IndexOf(prefs[v], outcome);
      levels := levels + [level];
    }
  }

  /** On a ballot without repeats, the candidate ranked `i` gives happiness
      `len(pref) - i`: the top choice the full length, the last choice 1. */
  lemma HappinessAtRank(pref: Ballot, i: nat)
    requires Distinct(pref) && i < |pref|
    ensures HappinessLevel(pref, pref[i]) == |pref| - i
  {
    var j := IndexOf(pref, pref[i]);
    assert pref[j] == pref[i];
  }

  /** Happiness and Borda points are the same position measure: on a ballot
      without repeats, with `m` the ballot's length, a candidate's happiness
      is one more than the Borda points the ballot gives it. */
  lemma HappinessIsBordaPlusOne(pref: Ballot, c: Candidate)
    requires Distinct(pref) && c in pref
    ensures HappinessLevel(pref, c) == BallotPoints(pref, |pref|, c) + 1
  {
    var i := IndexOf(pref, c);
    HappinessAtRank(pref, i);
    BallotPointsAt(pref, |pref|, i);
  }
}
