/** schemes.py: the four voting rules, each returning the winner together with
    the full ranked order of candidates. */
module Schemes {
  import opened Names
  import opened Ranking
  import opened Scoring

  /** A rule's result: the winner and the full order it was taken from. */
  datatype Election = Election(winner: Candidate, order: seq<Candidate>)

  /** What every rule of schemes.py promises of its full order: the names of
      the sorted outcome come first, then every other candidate of
      `candidates`, and no name appears twice. */
  predicate RankedOrder(order: seq<Candidate>, outcome: seq<Tally>, candidates: seq<Candidate>)
  {
    && SortedByKey(outcome)
    && |outcome| <= |order| && order[..|outcome|] == NamesOf(outcome)
    && (forall c :: c in candidates ==> c in order)
    && (forall c :: c in order ==> c in candidates || c in NamesOf(outcome))
    && Distinct(order)
  }

  /** The list `get_outcome_order` builds: the outcome's names in order, then
      each candidate of `candidates` not yet listed, in that list's order. */
  function OutcomeOrder(outcome: seq<Tally>, candidates: seq<Candidate>): (r: seq<Candidate>)
    ensures |outcome| <= |r| && r[..|outcome|] == NamesOf(outcome)
    ensures forall c :: c in candidates ==> c in r
    ensures forall c :: c in r ==> c in NamesOf(outcome) || c in candidates
    ensures forall i :: |outcome| <= i < |r| ==> r[i] !in NamesOf(outcome) && r[i] in candidates
    ensures forall i, j :: |outcome| <= i < j < |r| ==> IndexOf(candidates, r[i]) < IndexOf(candidates, r[j])
    ensures Distinct(NamesOf(outcome)) ==> Distinct(r)
  {
    var r := AppendNew(NamesOf(outcome), candidates);
    AppendNewOrder(NamesOf(outcome), candidates);
    assert forall i :: |outcome| <= i < |r| ==> r[i] in r;
    r
  }

  /** The full order built from any ranking over distinct keys is a ranked order. */
  lemma RankedOutcomeOrder(keys: seq<Candidate>, score: Candidate -> int, candidates: seq<Candidate>)
    requires Distinct(keys)
    ensures RankedOrder(OutcomeOrder(RankBy(keys, score), candidates), RankBy(keys, score), candidates)
  {
  }

  method GetOutcomeOrder(outcome: seq<Tally>, candidates: seq<Candidate>) returns (order: seq<Candidate>)
    ensures order == OutcomeOrder(outcome, candidates)
  {
    order := [];
    for i := 0 to |outcome|
      invariant order == NamesOf(outcome)[..i]
    {
      order := order + [outcome[i].name];
    }
    assert NamesOf(outcome)[..|outcome|] == NamesOf(outcome);
    for j := 0 to |candidates|
      invariant order == AppendNew(NamesOf(outcome), candidates[..j])
    {
      assert candidates[..j + 1][..j] == candidates[..j];
      if candidates[j] !in order {
        order := order + [candidates[j]];
      }
    }
    assert candidates[..|candidates|] == candidates;
  }

  /** Plurality: most first places wins, ties to the smaller name. */
  function Plurality(prefs: seq<Ballot>): (r: Election)
    requires |prefs| > 0 && NonEmptyBallots(prefs)
    ensures HighestThenSmallest(r.winner, FirstChoices(prefs), VoteCount(FirstChoices(prefs)))
    ensures RankedOrder(r.order, PluralityRanking(prefs), prefs[0])
    ensures r.order == OutcomeOrder(PluralityRanking(prefs), prefs[0])
    ensures r.order[0] == r.winner
  {
    var votes := FirstChoices(prefs);
    var outcome := PluralityRanking(prefs);
    RankByWinner(Dedup(votes), votes, VoteCount(votes));
    RankedOutcomeOrder(Dedup(votes), VoteCount(votes), prefs[0]);
    var order := OutcomeOrder(outcome, prefs[0]);
    assert order[0] == order[..|outcome|][0] == NamesOf(outcome)[0];
    Election(outcome[0].name, order)
  }

  /** Voting for two: most first and second places together wins, ties to the smaller name. */
  function VotingForTwo(prefs: seq<Ballot>): (r: Election)
    requires |prefs| > 0 && BallotsOfTwo(prefs)
    ensures HighestThenSmallest(r.winner, TopTwoChoices(prefs), VoteCount(TopTwoChoices(prefs)))
    ensures RankedOrder(r.order, VotingForTwoRanking(prefs), prefs[0])
    ensures r.order == OutcomeOrder(VotingForTwoRanking(prefs), prefs[0])
    ensures r.order[0] == r.winner
  {
    var votes := TopTwoChoices(prefs);
    var outcome := VotingForTwoRanking(prefs);
    RankByWinner(Dedup(votes), votes, VoteCount(votes));
    RankedOutcomeOrder(Dedup(votes), VoteCount(votes), prefs[0]);
    var order := OutcomeOrder(outcome, prefs[0]);
    assert order[0] == order[..|outcome|][0] == NamesOf(outcome)[0];
    Election(outcome[0].name, order)
  }

  /** Anti-plurality over the candidates of the first ballot: fewest last
      places wins, ties to the smaller name. */
  method AntiPlurality(prefs: seq<Ballot>) returns (r: Election)
    requires |prefs| > 0 && NonEmptyBallots(prefs)
    ensures HighestThenSmallest(r.winner, prefs[0], AntiPluralityScore(prefs))
    ensures r.winner == AntiPluralityRanking(prefs, prefs[0])[0].name
    ensures RankedOrder(r.order, AntiPluralityRanking(prefs, prefs[0]), prefs[0])
    ensures r.order[0] == r.winner
  {
    var items := TallyAntiPlurality(prefs, prefs[0]);
    var outcome := Rank(items);
    RankByWinner(Dedup(prefs[0]), prefs[0], AntiPluralityScore(prefs));
    RankedOutcomeOrder(Dedup(prefs[0]), AntiPluralityScore(prefs), prefs[0]);
    var order := GetOutcomeOrder(outcome, prefs[0]);
    assert order[0] == order[..|outcome|][0] == NamesOf(outcome)[0];
    r := Election(outcome[0].name, order);
  }

  /** Borda over the candidates of the first ballot, `m = len(preferences[0])`. */
  method Borda(prefs: seq<Ballot>) returns (r: Election)
    requires |prefs| > 0 && |prefs[0]| > 0 && AllListed(prefs, prefs[0])
    ensures HighestThenSmallest(r.winner, prefs[0], BordaPoints(prefs, |prefs[0]|))
    ensures r.winner == BordaRanking(prefs, prefs[0])[0].name
    ensures RankedOrder(r.order, BordaRanking(prefs, prefs[0]), prefs[0])
    ensures r.order[0] == r.winner
  {
    var items := TallyBorda(prefs, prefs[0]);
    var outcome := Rank(items);
    RankByWinner(Dedup(prefs[0]), prefs[0], BordaPoints(prefs, |prefs[0]|));
    RankedOutcomeOrder(Dedup(prefs[0]), BordaPoints(prefs, |prefs[0]|), prefs[0]);
    var order := GetOutcomeOrder(outcome, prefs[0]);
    assert order[0] == order[..|outcome|][0] == NamesOf(outcome)[0];
    r := Election(outcome[0].name, order);
  }
}
