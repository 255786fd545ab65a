/** schemes/__init__.py: the four rules returning the winner only, with the
    candidates of anti-plurality and Borda taken from the first ballot. The
    plurality and voting-for-two bodies there are the ones of voting.py. */
module SchemesPackage {
  import opened Names
  import opened Ranking
  import opened Scoring
  import Schemes
  import Voting

  /** Anti-plurality over the candidates of the first ballot. */
  method AntiPlurality(prefs: seq<Ballot>) returns (w: Candidate)
    requires |prefs| > 0 && NonEmptyBallots(prefs)
    ensures HighestThenSmallest(w, prefs[0], AntiPluralityScore(prefs))
    ensures w == AntiPluralityRanking(prefs, prefs[0])[0].name
  {
    w := Voting.AntiPlurality(prefs, prefs[0]);
  }

  /** Borda over the candidates of the first ballot, `m = len(preferences[0])`. */
  method Borda(prefs: seq<Ballot>) returns (w: Candidate)
    requires |prefs| > 0 && |prefs[0]| > 0 && AllListed(prefs, prefs[0])
    ensures HighestThenSmallest(w, prefs[0], BordaPoints(prefs, |prefs[0]|))
    ensures w == BordaRanking(prefs, prefs[0])[0].name
  {
    w := Voting.Borda(prefs, prefs[0]);
  }

  /** The winner-only plurality is the winner of the full-order plurality. */
  lemma PluralitySameWinner(prefs: seq<Ballot>)
    requires |prefs| > 0 && NonEmptyBallots(prefs)
    ensures Voting.Plurality(prefs) == Schemes.Plurality(prefs).winner
  {
    var votes := FirstChoices(prefs);
    HighestThenSmallestUnique(Voting.Plurality(prefs), Schemes.Plurality(prefs).winner, votes, VoteCount(votes));
  }

  /** The winner-only voting for two is the winner of the full-order one. */
  lemma VotingForTwoSameWinner(prefs: seq<Ballot>)
    requires |prefs| > 0 && BallotsOfTwo(prefs)
    ensures Voting.VotingForTwo(prefs) == Schemes.VotingForTwo(prefs).winner
  {
    var votes := TopTwoChoices(prefs);
    HighestThenSmallestUnique(Voting.VotingForTwo(prefs), Schemes.VotingForTwo(prefs).winner, votes, VoteCount(votes));
  }
}
