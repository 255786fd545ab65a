/** What each rule scores, and the score-filling loops the three revisions
    share (schemes.py, schemes/__init__.py and voting.py run the same loops;
    the first two take `preferences[0]` as the candidate list). */
module Scoring {
  import opened Names
  import opened Ranking

  predicate NonEmptyBallots(prefs: seq<Ballot>)
  {
    forall v :: 0 <= v < |prefs| ==> |prefs[v]| > 0
  }

  predicate BallotsOfTwo(prefs: seq<Ballot>)
  {
    forall v :: 0 <= v < |prefs| ==> |prefs[v]| >= 2
  }

  /** Every name on every ballot is a key of the scores dict (else `KeyError`). */
  predicate AllListed(prefs: seq<Ballot>, candidates: seq<Candidate>)
  {
    forall v, i :: 0 <= v < |prefs| && 0 <= i < |prefs[v]| ==> prefs[v][i] in candidates
  }

  /** `[pref[0] for pref in preferences]` */
  function FirstChoices(prefs: seq<Ballot>): (r: seq<Candidate>)
    requires NonEmptyBallots(prefs)
    ensures |r| == |prefs|
    ensures forall v :: 0 <= v < |prefs| ==> r[v] == prefs[v][0]
  {
    seq(|prefs|, v requires 0 <= v < |prefs| && |prefs[v]| > 0 => prefs[v][0])
  }

  /** `[pref[0] for pref in preferences] + [pref[1] for pref in preferences]` */
  function TopTwoChoices(prefs: seq<Ballot>): (r: seq<Candidate>)
    requires BallotsOfTwo(prefs)
    ensures |r| == 2 * |prefs|
    ensures forall v :: 0 <= v < |prefs| ==> r[v] == prefs[v][0] && r[|prefs| + v] == prefs[v][1]
  {
    FirstChoices(prefs) + seq(|prefs|, v requires 0 <= v < |prefs| && |prefs[v]| >= 2 => prefs[v][1])
  }

  /** `pref[-1] for pref in preferences` */
  function LastChoices(prefs: seq<Ballot>): (r: seq<Candidate>)
    requires NonEmptyBallots(prefs)
    ensures |r| == |prefs|
    ensures forall v :: 0 <= v < |prefs| ==> r[v] == prefs[v][|prefs[v]| - 1]
  {
    seq(|prefs|, v requires 0 <= v < |prefs| && |prefs[v]| > 0 => prefs[v][|prefs[v]| - 1])
  }

  /** A Counter over `votes`, read as a score. */
  function VoteCount(votes: seq<Candidate>): Candidate -> int
  {
    c => Count(votes, c)
  }

  /** `total_votes - last_place_votes.get(candidate, 0)`: between 0 and the
      number of voters, and the full number of voters exactly for a candidate
      nobody ranks last. */
  function AntiPluralityScore(prefs: seq<Ballot>): (score: Candidate -> int)
    requires NonEmptyBallots(prefs)
    ensures forall c :: 0 <= score(c) <= |prefs|
    ensures forall c :: score(c) == |prefs| <==> c !in LastChoices(prefs)
  {
    var lasts := LastChoices(prefs);
    c => |prefs| - Count(lasts, c)
  }

  /** Points one ballot gives `c`: `m - i - 1` for each position `i` holding `c`. */
  function BallotPoints(pref: Ballot, m: int, c: Candidate): int
  {
    if pref == [] then 0
    else BallotPoints(pref[..|pref| - 1], m, c) + (if pref[|pref| - 1] == c then m - (|pref| - 1) - 1 else 0)
  }

  /** The Borda score of `c`: the sum of its points over all ballots. */
  function BordaScore(prefs: seq<Ballot>, m: int, c: Candidate): int
  {
    if prefs == [] then 0
    else BordaScore(prefs[..|prefs| - 1], m, c) + BallotPoints(prefs[|prefs| - 1], m, c)
  }

  function BordaPoints(prefs: seq<Ballot>, m: int): Candidate -> int
  {
    c => BordaScore(prefs, m, c)
  }

  /** Sorted outcome of plurality: first-place votes per candidate that has any. */
  function PluralityRanking(prefs: seq<Ballot>): seq<Tally>
    requires NonEmptyBallots(prefs)
  {
    var votes := FirstChoices(prefs);
    RankBy(Dedup(votes), VoteCount(votes))
  }

  /** Sorted outcome of voting-for-two: first- and second-place votes together. */
  function VotingForTwoRanking(prefs: seq<Ballot>): seq<Tally>
    requires BallotsOfTwo(prefs)
  {
    var votes := TopTwoChoices(prefs);
    RankBy(Dedup(votes), VoteCount(votes))
  }

  /** Sorted outcome of anti-plurality over the keys of `candidates`. */
  function AntiPluralityRanking(prefs: seq<Ballot>, candidates: seq<Candidate>): seq<Tally>
    requires NonEmptyBallots(prefs)
  {
    RankBy(Dedup(candidates), AntiPluralityScore(prefs))
  }

  /** Sorted outcome of Borda over the keys of `candidates`, `m = len(candidates)`. */
  function BordaRanking(prefs: seq<Ballot>, candidates: seq<Candidate>): seq<Tally>
  {
    RankBy(Dedup(candidates), BordaPoints(prefs, |candidates|))
  }

  /** The anti-plurality scores dict: every key starts at 0, then the loop
      over its keys sets each to voters minus last places. */
  method TallyAntiPlurality(prefs: seq<Ballot>, candidates: seq<Candidate>) returns (items: seq<Tally>)
    requires NonEmptyBallots(prefs)
    ensures items == Scored(Dedup(candidates), AntiPluralityScore(prefs))
  {
    var lastPlaceVotes := LastChoices(prefs);
    var keys := Dedup(candidates);
    ghost var target := Scored(keys, AntiPluralityScore(prefs));
    var scores: map<Candidate, int> := map c | c in keys :: 0;
    var totalVotes := |prefs|;
    for k := 0 to |keys|
      invariant forall c :: c in scores <==> c in keys
      invariant forall j :: 0 <= j < k ==> scores[keys[j]] == target[j].score
    {
      assert target[k].score == totalVotes - Count(lastPlaceVotes, keys[k]);
      SetScore(scores, keys, target, k);
      scores := scores[keys[k] := totalVotes - Count(lastPlaceVotes, keys[k])];
    }
    items := seq(|keys|, i requires 0 <= i < |keys| => Tally(keys[i], scores[keys[i]]));
  }

  /** Setting the score of the next key of a dict keeps the scores already set. */
  lemma SetScore(scores: map<Candidate, int>, keys: seq<Candidate>, target: seq<Tally>, k: nat)
    requires Distinct(keys) && k < |keys| == |target|
    requires forall c :: c in scores <==> c in keys
    requires forall j :: 0 <= j < k ==> scores[keys[j]] == target[j].score
    ensures var next := scores[keys[k] := target[k].score];
      && (forall c :: c in next <==> c in keys)
      && (forall j :: 0 <= j <= k ==> next[keys[j]] == target[j].score)
  {
  }

  /** The Borda scores dict: every key starts at 0, then each ballot adds
      `len(candidates) - i - 1` to the candidate at each position `i`. */
  method TallyBorda(prefs: seq<Ballot>, candidates: seq<Candidate>) returns (items: seq<Tally>)
    requires AllListed(prefs, candidates)
    ensures items == Scored(Dedup(candidates), BordaPoints(prefs, |candidates|))
  {
    var m := |candidates|;
    var keys := Dedup(candidates);
    var scores: map<Candidate, int> := map c | c in keys :: 0;
    for v := 0 to |prefs|
      invariant forall c :: c in scores <==> c in keys
      invariant forall c :: c in keys ==> scores[c] == BordaScore(prefs[..v], m, c)
    {
      var pref := prefs[v];
      for i := 0 to |pref|
        invariant forall c :: c in scores <==> c in keys
        invariant forall c :: c in keys ==> scores[c] == BordaScore(prefs[..v], m, c) + BallotPoints(pref[..i], m, c)
      {
        BallotPointsStep(pref, m, i);
        scores := scores[pref[i] := scores[pref[i]] + m - i - 1];
      }
      assert pref[..|pref|] == pref;
      BordaScoreStep(prefs, m, v);
    }
    assert prefs[..|prefs|] == prefs;
    items := seq(|keys|, i requires 0 <= i < |keys| => Tally(keys[i], scores[keys[i]]));
  }

  /** One more position of a ballot adds its points to the candidate there only. */
  lemma BallotPointsStep(pref: Ballot, m: int, i: nat)
    requires i < |pref|
    ensures forall c :: BallotPoints(pref[..i + 1], m, c) == BallotPoints(pref[..i], m, c) + (if pref[i] == c then m - i - 1 else 0)
  {
    assert pref[..i + 1][..i] == pref[..i];
  }

  /** One more ballot adds its points to every candidate's score. */
  lemma BordaScoreStep(prefs: seq<Ballot>, m: int, v: nat)
    requires v < |prefs|
    ensures forall c :: BordaScore(prefs[..v + 1], m, c) == BordaScore(prefs[..v], m, c) + BallotPoints(prefs[v], m, c)
  {
    assert prefs[..v + 1][..v] == prefs[..v];
  }

  /** The sum of `f` over `keys`. */
  function SumOver(keys: seq<Candidate>, f: Candidate -> int): int
  {
    if keys == [] then 0 else SumOver(keys[..|keys| - 1], f) + f(keys[|keys| - 1])
  }

  /** Adding `w` to the score of `x` alone adds `w` once per occurrence of `x`. */
  lemma {:induction false} SumOverBump(keys: seq<Candidate>, f: Candidate -> int, g: Candidate -> int, x: Candidate, w: int)
    requires forall c :: f(c) == g(c) + (if c == x then w else 0)
    ensures SumOver(keys, f) == SumOver(keys, g) + w * Count(keys, x)
  {
    if keys != [] {
      var init := keys[..|keys| - 1];
      SumOverBump(init, f, g, x, w);
      assert w * Count(keys, x) == w * Count(init, x) + (if keys[|keys| - 1] == x then w else 0);
    }
  }

  lemma {:induction false} SumOverAdd(keys: seq<Candidate>, f: Candidate -> int, g: Candidate -> int, h: Candidate -> int)
    requires forall c :: f(c) == g(c) + h(c)
    ensures SumOver(keys, f) == SumOver(keys, g) + SumOver(keys, h)
  {
    if keys != [] {
      SumOverAdd(keys[..|keys| - 1], f, g, h);
    }
  }

  lemma {:induction false} CountDistinct(s: seq<Candidate>, x: Candidate)
    requires Distinct(s) && x in s
    ensures Count(s, x) == 1
  {
    var init := s[..|s| - 1];
    if s[|s| - 1] == x {
      assert x !in init;
    } else {
      assert x in init;
      CountDistinct(init, x);
    }
  }

  /** One more vote adds its candidate to the keys unless it is already there. */
  lemma DedupStep(votes: seq<Candidate>)
    requires votes != []
    ensures var w := votes[..|votes| - 1];
      var x := votes[|votes| - 1];
      Dedup(votes) == if x in Dedup(w) then Dedup(w) else Dedup(w) + [x]
  {
  }

  /** The counts of a Counter add up to the number of votes counted. */
  lemma {:induction false} VoteCountsSum(votes: seq<Candidate>)
    ensures SumOver(Dedup(votes), VoteCount(votes)) == |votes|
  {
    if votes != [] {
      var w := votes[..|votes| - 1];
      var x := votes[|votes| - 1];
      VoteCountsSum(w);
      var keys := Dedup(votes);
      DedupStep(votes);
      assert forall c :: VoteCount(votes)(c) == VoteCount(w)(c) + (if c == x then 1 else 0);
      SumOverBump(keys, VoteCount(votes), VoteCount(w), x, 1);
      CountDistinct(keys, x);
      if x !in w {
        assert keys[..|keys| - 1] == Dedup(w);
        assert Count(w, x) == 0;
        assert SumOver(keys, VoteCount(w)) == SumOver(Dedup(w), VoteCount(w));
      } else {
        assert keys == Dedup(w);
      }
    }
  }

  /** Plurality hands out exactly one vote per voter. */
  lemma PluralityVotesSum(prefs: seq<Ballot>)
    requires NonEmptyBallots(prefs)
    ensures SumOver(Dedup(FirstChoices(prefs)), VoteCount(FirstChoices(prefs))) == |prefs|
  {
    VoteCountsSum(FirstChoices(prefs));
  }

  /** Voting-for-two hands out exactly two votes per voter. */
  lemma VotingForTwoVotesSum(prefs: seq<Ballot>)
    requires BallotsOfTwo(prefs)
    ensures SumOver(Dedup(TopTwoChoices(prefs)), VoteCount(TopTwoChoices(prefs))) == 2 * |prefs|
  {
    VoteCountsSum(TopTwoChoices(prefs));
  }

  function BallotPointsOf(pref: Ballot, m: int): Candidate -> int
  {
    c => BallotPoints(pref, m, c)
  }

  /** `(m - 1) + (m - 2) + ... + (m - n)`: the points of the first `n` positions. */
  function PositionWeights(n: nat, m: int): int
  {
    if n == 0 then 0 else PositionWeights(n - 1, m) + m - (n - 1) - 1
  }

  lemma {:induction false} PositionWeightsClosed(n: nat, m: int)
    ensures 2 * PositionWeights(n, m) == 2 * n * m - n * (n + 1)
  {
    if n > 0 {
      PositionWeightsClosed(n - 1, m);
      assert 2 * (n - 1) * m == 2 * n * m - 2 * m;
      assert (n - 1) * n == n * (n + 1) - 2 * n;
    }
  }

  lemma {:induction false} BallotPointsAbsent(pref: Ballot, m: int, c: Candidate)
    requires c !in pref
    ensures BallotPoints(pref, m, c) == 0
  {
    if pref != [] {
      assert pref[..|pref| - 1] <= pref;
      BallotPointsAbsent(pref[..|pref| - 1], m, c);
    }
  }

  /** On a ballot without repeats the candidate at position `i` gets `m - i - 1`. */
  lemma {:induction false} BallotPointsAt(pref: Ballot, m: int, i: nat)
    requires Distinct(pref) && i < |pref|
    ensures BallotPoints(pref, m, pref[i]) == m - i - 1
  {
    var init := pref[..|pref| - 1];
    if i == |pref| - 1 {
      assert pref[i] !in init;
      BallotPointsAbsent(init, m, pref[i]);
    } else {
      assert init[i] == pref[i];
      BallotPointsAt(init, m, i);
    }
  }

  /** A full ballot of `m` candidates gives its top choice `m - 1` points and its last 0. */
  lemma BordaTopAndLast(pref: Ballot)
    requires Distinct(pref) && |pref| > 0
    ensures BallotPoints(pref, |pref|, pref[0]) == |pref| - 1
    ensures BallotPoints(pref, |pref|, pref[|pref| - 1]) == 0
  {
    BallotPointsAt(pref, |pref|, 0);
    BallotPointsAt(pref, |pref|, |pref| - 1);
  }

  /** Over keys that list each of its names once, a ballot hands out the points
      of its positions exactly once each. */
  lemma {:induction false} BallotPointsSum(pref: Ballot, m: int, keys: seq<Candidate>)
    requires Distinct(keys)
    requires forall i :: 0 <= i < |pref| ==> pref[i] in keys
    ensures SumOver(keys, BallotPointsOf(pref, m)) == PositionWeights(|pref|, m)
  {
    if pref != [] {
      var init := pref[..|pref| - 1];
      var x := pref[|pref| - 1];
      BallotPointsSum(init, m, keys);
      assert forall c :: BallotPointsOf(pref, m)(c) == BallotPointsOf(init, m)(c) + (if c == x then m - |init| - 1 else 0);
      SumOverBump(keys, BallotPointsOf(pref, m), BallotPointsOf(init, m), x, m - |init| - 1);
      CountDistinct(keys, x);
    } else {
      SumOverAdd(keys, BallotPointsOf(pref, m), BallotPointsOf(pref, m), BallotPointsOf(pref, m));
    }
  }

  /** A ballot ranking all `m` keys, each once, hands out m(m-1)/2 points. */
  lemma BordaBallotTotal(pref: Ballot, keys: seq<Candidate>)
    requires Distinct(keys) && |pref| == |keys|
    requires forall i :: 0 <= i < |pref| ==> pref[i] in keys
    ensures 2 * SumOver(keys, BallotPointsOf(pref, |keys|)) == |keys| * (|keys| - 1)
  {
    BallotPointsSum(pref, |keys|, keys);
    PositionWeightsClosed(|pref|, |keys|);
  }

  /** With `n` such ballots the Borda scores add up to n * m(m-1)/2. */
  lemma {:induction false} BordaTotal(prefs: seq<Ballot>, keys: seq<Candidate>)
    requires Distinct(keys)
    requires forall v :: 0 <= v < |prefs| ==> |prefs[v]| == |keys|
    requires AllListed(prefs, keys)
    ensures 2 * SumOver(keys, BordaPoints(prefs, |keys|)) == |prefs| * (|keys| * (|keys| - 1))
  {
    var m := |keys|;
    if prefs != [] {
      var init := prefs[..|prefs| - 1];
      var last := prefs[|prefs| - 1];
      BordaTotal(init, keys);
      assert forall c :: BordaPoints(prefs, m)(c) == BordaPoints(init, m)(c) + BallotPointsOf(last, m)(c);
      SumOverAdd(keys, BordaPoints(prefs, m), BordaPoints(init, m), BallotPointsOf(last, m));
      BordaBallotTotal(last, keys);
      var pairs := m * (m - 1);
      assert |prefs| * pairs == |init| * pairs + pairs;
    } else {
      SumOverAdd(keys, BordaPoints(prefs, m), BordaPoints(prefs, m), BordaPoints(prefs, m));
    }
  }
}
